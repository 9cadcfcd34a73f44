/** The keyword index of a portfolio: a map from lower-case name token to the
    positions of the holdings whose name has that token. This module holds
    the index as a function of the holdings' token lists, the two updates the
    portfolio applies to it (indexing a new holding, renumbering after a
    removal), the multi-keyword intersection of a search, and the lemmas
    that tie them together. */
module KeywordIndex {

  type Index = map<string, seq<int>>

  /** How often t occurs among the tokens ws. */
  function Count(ws: seq<string>, t: string): nat {
    if ws == [] then 0 else Count(ws[..|ws| - 1], t) + (if ws[|ws| - 1] == t then 1 else 0)
  }

  function Repeat(x: int, n: nat): (r: seq<int>)
    ensures |r| == n && forall k :: 0 <= k < n ==> r[k] == x
  {
    if n == 0 then [] else Repeat(x, n - 1) + [x]
  }

  /** The bucket of t for holdings whose token lists are toks, numbered from `from`:
      each position once per occurrence of t in that holding's name. */
  function BucketFrom(toks: seq<seq<string>>, t: string, from: int): seq<int> {
    if toks == [] then [] else Repeat(from, Count(toks[0], t)) + BucketFrom(toks[1..], t, from + 1)
  }

  /** Every token of every holding. */
  function AllTokens(toks: seq<seq<string>>): set<string> {
    set i, k | 0 <= i < |toks| && 0 <= k < |toks[i]| :: toks[i][k]
  }

  /** The one index that is consistent with holdings whose names have the token lists toks. */
  function IndexOf(toks: seq<seq<string>>): Index {
    map t | t in AllTokens(toks) :: BucketFrom(toks, t, 0)
  }

  /** keywordIndex.getOrDefault(t, empty list). */
  function Lookup(m: Index, t: string): seq<int> {
    if t in m then m[t] else []
  }

  /** indexKeywords: for each token in turn, append the position to its bucket,
      creating the bucket when it is absent. */
  function AddWords(m: Index, ws: seq<string>, pos: int): Index {
    if ws == [] then m
    else
      var m' := AddWords(m, ws[..|ws| - 1], pos);
      var t := ws[|ws| - 1];
      m'[t := Lookup(m', t) + [pos]]
  }

  /** positions.removeIf(pos -> pos == removed). */
  function Without(b: seq<int>, removed: int): (r: seq<int>)
    ensures forall x :: x in r <==> x in b && x != removed
  {
    if b == [] then [] else (if b[0] == removed then [] else [b[0]]) + Without(b[1..], removed)
  }

  /** The loop that lowers by one every position above the removed one. */
  function Renumber(b: seq<int>, removed: int): (r: seq<int>)
    ensures |r| == |b|
    ensures forall k {:trigger r[k]} :: 0 <= k < |b| ==> r[k] == if b[k] > removed then b[k] - 1 else b[k]
  {
    if b == [] then [] else [if b[0] > removed then b[0] - 1 else b[0]] + Renumber(b[1..], removed)
  }

  /** The new contents of one bucket after the holding at `removed` is gone. */
  function Adjust(b: seq<int>, removed: int): seq<int> {
    Renumber(Without(b, removed), removed)
  }

  /** updateIndexOnRemoval: every bucket adjusted, emptied buckets deleted. */
  function RemoveFromIndex(m: Index, removed: int): (r: Index)
    ensures forall t :: t in r <==> t in m && Adjust(m[t], removed) != []
  {
    map t | t in m && Adjust(m[t], removed) != [] :: Adjust(m[t], removed)
  }

  /** The list with the element at position j taken out. */
  function RemoveAt<T>(s: seq<T>, j: int): seq<T>
    requires 0 <= j < |s|
  {
    s[..j] + s[j + 1..]
  }

  predicate IsSorted(b: seq<int>) {
    forall i, k :: 0 <= i < k < |b| ==> b[i] <= b[k]
  }

  // ----- counting and repetition

  lemma {:induction false} CountPositive(ws: seq<string>, t: string)
    ensures Count(ws, t) > 0 <==> t in ws
  {
    if ws != [] {
      CountPositive(ws[..|ws| - 1], t);
      assert ws == ws[..|ws| - 1] + [ws[|ws| - 1]];
    }
  }

  lemma {:induction false} CountAppend(ws: seq<string>, w: string, t: string)
    ensures Count(ws + [w], t) == Count(ws, t) + (if w == t then 1 else 0)
  {
    assert (ws + [w])[..|ws|] == ws;
  }

  // ----- buckets

  lemma {:induction false} BucketFromAppend(a: seq<seq<string>>, b: seq<seq<string>>, t: string, from: int)
    ensures BucketFrom(a + b, t, from) == BucketFrom(a, t, from) + BucketFrom(b, t, from + |a|)
    decreases |a|
  {
    if a == [] {
      assert a + b == b;
    } else {
      assert (a + b)[0] == a[0];
      assert (a + b)[1..] == a[1..] + b;
      BucketFromAppend(a[1..], b, t, from + 1);
    }
  }

  /** Position x is in the bucket of t exactly when the holding at x has token t. */
  lemma {:induction false} BucketMembership(toks: seq<seq<string>>, t: string, from: int, x: int)
    ensures x in BucketFrom(toks, t, from) <==> from <= x < from + |toks| && t in toks[x - from]
    decreases |toks|
  {
    if toks != [] {
      var n := Count(toks[0], t);
      var rest := BucketFrom(toks[1..], t, from + 1);
      assert BucketFrom(toks, t, from) == Repeat(from, n) + rest;
      BucketMembership(toks[1..], t, from + 1, x);
      CountPositive(toks[0], t);
      RepeatMembership(from, n, x);
      if from + 1 <= x < from + |toks| {
        assert toks[1..][x - (from + 1)] == toks[x - from];
      }
    }
  }

  lemma RepeatMembership(x: int, n: nat, y: int)
    ensures y in Repeat(x, n) <==> n > 0 && y == x
  {
    if n > 0 {
      assert Repeat(x, n)[0] == x;
    }
  }

  lemma {:induction false} BucketBounds(toks: seq<seq<string>>, t: string, from: int)
    ensures forall x :: x in BucketFrom(toks, t, from) ==> from <= x < from + |toks|
  {
    forall x | x in BucketFrom(toks, t, from) ensures from <= x < from + |toks| {
      BucketMembership(toks, t, from, x);
    }
  }

  lemma {:induction false} BucketEmpty(toks: seq<seq<string>>, t: string, from: int)
    ensures BucketFrom(toks, t, from) == [] <==> t !in AllTokens(toks)
  {
    var b := BucketFrom(toks, t, from);
    if t in AllTokens(toks) {
      var i, k :| 0 <= i < |toks| && 0 <= k < |toks[i]| && toks[i][k] == t;
      BucketMembership(toks, t, from, from + i);
    }
    if b != [] {
      BucketMembership(toks, t, from, b[0]);
      var i := b[0] - from;
      var k :| 0 <= k < |toks[i]| && toks[i][k] == t;
      assert t in AllTokens(toks);
    }
  }

  /** Each bucket lists its positions in ascending order. */
  lemma {:induction false} BucketSorted(toks: seq<seq<string>>, t: string, from: int)
    ensures IsSorted(BucketFrom(toks, t, from))
    decreases |toks|
  {
    if toks != [] {
      BucketSorted(toks[1..], t, from + 1);
      BucketBounds(toks[1..], t, from + 1);
      var r := Repeat(from, Count(toks[0], t));
      var rest := BucketFrom(toks[1..], t, from + 1);
      var b := r + rest;
      forall i, k | 0 <= i < k < |b| ensures b[i] <= b[k] {
        if k >= |r| {
          assert b[k] == rest[k - |r|];
          assert rest[k - |r|] in rest;
          if i >= |r| { assert b[i] == rest[i - |r|]; }
        }
      }
    }
  }

  /** The consistency invariant of the index: t maps to a bucket holding
      position x exactly when the holding at x has token t in its name. */
  lemma {:induction false} IndexMembership(toks: seq<seq<string>>, t: string, x: int)
    ensures (t in IndexOf(toks) && x in IndexOf(toks)[t]) <==> 0 <= x < |toks| && t in toks[x]
    ensures t in IndexOf(toks) <==> BucketFrom(toks, t, 0) != []
  {
    BucketMembership(toks, t, 0, x);
    BucketEmpty(toks, t, 0);
  }

  lemma {:induction false} LookupIndexOf(toks: seq<seq<string>>, t: string)
    ensures Lookup(IndexOf(toks), t) == BucketFrom(toks, t, 0)
  {
    BucketEmpty(toks, t, 0);
  }

  // ----- indexing a new holding

  lemma {:induction false} AddWordsLookup(m: Index, ws: seq<string>, pos: int, t: string)
    ensures Lookup(AddWords(m, ws, pos), t) == Lookup(m, t) + Repeat(pos, Count(ws, t))
    ensures t in AddWords(m, ws, pos) <==> t in m || t in ws
  {
    if ws != [] {
      var init, last := ws[..|ws| - 1], ws[|ws| - 1];
      AddWordsLookup(m, init, pos, t);
      InInitOrLast(ws, t);
      var c := Count(init, t);
      if last == t {
        assert Count(ws, t) == c + 1;
        assert Repeat(pos, c + 1) == Repeat(pos, c) + [pos];
      } else {
        assert Count(ws, t) == c;
      }
    }
  }

  /** An element of a non-empty list is in all but its last element, or is the last. */
  lemma InInitOrLast(ws: seq<string>, t: string)
    requires ws != []
    ensures t in ws <==> t in ws[..|ws| - 1] || t == ws[|ws| - 1]
  {
    assert ws == ws[..|ws| - 1] + [ws[|ws| - 1]];
  }

  /** Indexing the tokens of a holding appended at the end keeps the index consistent. */
  /** One key of the index of the appended token lists. */
  lemma {:induction false} IndexAppendAt(toks: seq<seq<string>>, ws: seq<string>, t: string)
    ensures var l, r := IndexOf(toks + [ws]), AddWords(IndexOf(toks), ws, |toks|);
      (t in l <==> t in r) && (t in l ==> l[t] == r[t])
  {
    AddWordsLookup(IndexOf(toks), ws, |toks|, t);
    LookupIndexOf(toks, t);
    LookupIndexOf(toks + [ws], t);
    BucketFromAppend(toks, [ws], t, 0);
    BucketEmpty(toks + [ws], t, 0);
    BucketEmpty(toks, t, 0);
    CountPositive(ws, t);
    assert BucketFrom([ws], t, |toks|) == Repeat(|toks|, Count(ws, t)) + [];
  }

  lemma {:induction false} IndexAppend(toks: seq<seq<string>>, ws: seq<string>)
    ensures IndexOf(toks + [ws]) == AddWords(IndexOf(toks), ws, |toks|)
  {
    var l := IndexOf(toks + [ws]);
    var r := AddWords(IndexOf(toks), ws, |toks|);
    forall t ensures (t in l <==> t in r) && (t in l ==> l[t] == r[t]) {
      IndexAppendAt(toks, ws, t);
    }
  }

  // ----- renumbering after a removal

  lemma {:induction false} WithoutAppend(a: seq<int>, b: seq<int>, j: int)
    ensures Without(a + b, j) == Without(a, j) + Without(b, j)
  {
    if a == [] {
      assert a + b == b;
    } else {
      assert (a + b)[0] == a[0];
      assert (a + b)[1..] == a[1..] + b;
      WithoutAppend(a[1..], b, j);
    }
  }

  lemma {:induction false} WithoutAbsent(b: seq<int>, j: int)
    requires j !in b
    ensures Without(b, j) == b
  {
    if b != [] {
      WithoutAbsent(b[1..], j);
    }
  }

  lemma {:induction false} WithoutRepeat(j: int, n: nat)
    ensures Without(Repeat(j, n), j) == []
  {
    if n > 0 {
      WithoutAppend(Repeat(j, n - 1), [j], j);
      WithoutRepeat(j, n - 1);
    }
  }

  lemma {:induction false} RenumberAppend(a: seq<int>, b: seq<int>, j: int)
    ensures Renumber(a + b, j) == Renumber(a, j) + Renumber(b, j)
  {
  }

  lemma {:induction false} RenumberBelow(b: seq<int>, j: int)
    requires forall x :: x in b ==> x <= j
    ensures Renumber(b, j) == b
  {
    forall k | 0 <= k < |b| ensures Renumber(b, j)[k] == b[k] {
      assert b[k] in b;
    }
  }

  /** Buckets of the holdings after the removed one shift down by one. */
  lemma {:induction false} RenumberBucket(toks: seq<seq<string>>, t: string, from: int, j: int)
    requires from > j
    ensures Renumber(BucketFrom(toks, t, from), j) == BucketFrom(toks, t, from - 1)
    decreases |toks|
  {
    if toks != [] {
      var r := Repeat(from, Count(toks[0], t));
      RenumberBucket(toks[1..], t, from + 1, j);
      RenumberAppend(r, BucketFrom(toks[1..], t, from + 1), j);
    }
  }

  /** A bucket split around the holding at j. */
  lemma {:induction false} BucketSplit(toks: seq<seq<string>>, t: string, j: int)
    requires 0 <= j < |toks|
    ensures BucketFrom(toks, t, 0)
            == BucketFrom(toks[..j], t, 0) + (Repeat(j, Count(toks[j], t)) + BucketFrom(toks[j + 1..], t, j + 1))
  {
    var a, c := toks[..j], toks[j + 1..];
    var rest := [toks[j]] + c;
    assert toks == a + rest;
    BucketFromAppend(a, rest, t, 0);
    assert rest[0] == toks[j] && rest[1..] == c;
    assert BucketFrom(rest, t, j) == Repeat(j, Count(toks[j], t)) + BucketFrom(c, t, j + 1);
  }

  lemma {:induction false} BucketAvoids(toks: seq<seq<string>>, t: string, from: int, j: int)
    requires j < from || from + |toks| <= j
    ensures j !in BucketFrom(toks, t, from)
  {
    BucketMembership(toks, t, from, j);
  }

  /** Taking the removed position out of a bucket leaves the entries of the
      holdings before it and after it. */
  lemma {:induction false} WithoutBucket(toks: seq<seq<string>>, t: string, j: int)
    requires 0 <= j < |toks|
    ensures Without(BucketFrom(toks, t, 0), j) == BucketFrom(toks[..j], t, 0) + BucketFrom(toks[j + 1..], t, j + 1)
  {
    var ba := BucketFrom(toks[..j], t, 0);
    var rj := Repeat(j, Count(toks[j], t));
    var bc := BucketFrom(toks[j + 1..], t, j + 1);
    BucketSplit(toks, t, j);
    BucketAvoids(toks[..j], t, 0, j);
    BucketAvoids(toks[j + 1..], t, j + 1, j);
    calc {
      Without(BucketFrom(toks, t, 0), j);
      Without(ba + (rj + bc), j);
      { WithoutAppend(ba, rj + bc, j); }
      Without(ba, j) + Without(rj + bc, j);
      { WithoutAppend(rj, bc, j); }
      Without(ba, j) + (Without(rj, j) + Without(bc, j));
      { WithoutAbsent(ba, j); WithoutRepeat(j, Count(toks[j], t)); WithoutAbsent(bc, j); }
      ba + ([] + bc);
      { assert [] + bc == bc; }
      ba + bc;
    }
  }

  lemma {:induction false} RenumberBucketBelow(toks: seq<seq<string>>, t: string, j: int)
    requires |toks| <= j
    ensures Renumber(BucketFrom(toks, t, 0), j) == BucketFrom(toks, t, 0)
  {
    BucketBounds(toks, t, 0);
    RenumberBelow(BucketFrom(toks, t, 0), j);
  }

  /** One bucket after the removal of the holding at j equals the bucket of the
      holdings that are left. */
  lemma {:induction false} AdjustBucket(toks: seq<seq<string>>, t: string, j: int)
    requires 0 <= j < |toks|
    ensures Adjust(BucketFrom(toks, t, 0), j) == BucketFrom(RemoveAt(toks, j), t, 0)
  {
    var ba := BucketFrom(toks[..j], t, 0);
    var bc := BucketFrom(toks[j + 1..], t, j + 1);
    calc {
      Adjust(BucketFrom(toks, t, 0), j);
      { WithoutBucket(toks, t, j); }
      Renumber(ba + bc, j);
      { RenumberAppend(ba, bc, j); }
      Renumber(ba, j) + Renumber(bc, j);
      { RenumberBucketBelow(toks[..j], t, j); RenumberBucket(toks[j + 1..], t, j + 1, j); }
      ba + BucketFrom(toks[j + 1..], t, j);
      { BucketFromAppend(toks[..j], toks[j + 1..], t, 0); }
      BucketFrom(RemoveAt(toks, j), t, 0);
    }
  }

  /** Renumbering after removing the holding at j keeps the index consistent:
      the adjusted index is the index of the holdings that are left. */
  lemma {:induction false} IndexRemove(toks: seq<seq<string>>, j: int)
    requires 0 <= j < |toks|
    ensures RemoveFromIndex(IndexOf(toks), j) == IndexOf(RemoveAt(toks, j))
  {
    var l := RemoveFromIndex(IndexOf(toks), j);
    var r := IndexOf(RemoveAt(toks, j));
    forall t ensures (t in l <==> t in r) && (t in l ==> l[t] == r[t]) {
      AdjustBucket(toks, t, j);
      LookupIndexOf(toks, t);
      LookupIndexOf(RemoveAt(toks, j), t);
      BucketEmpty(RemoveAt(toks, j), t, 0);
      if t !in IndexOf(toks) {
        BucketEmpty(toks, t, 0);
        assert Adjust([], j) == [];
      }
    }
  }

  // ----- intersection of keyword buckets

  /** matchedPositions.retainAll(positions): keep, in order, the elements of xs found in ys. */
  function RetainAll(xs: seq<int>, ys: seq<int>): (r: seq<int>)
    ensures forall x :: x in r <==> x in xs && x in ys
    ensures |r| <= |xs|
  {
    if xs == [] then [] else (if xs[0] in ys then [xs[0]] else []) + RetainAll(xs[1..], ys)
  }

  /** The positions left after intersecting the buckets of the keywords in
      order, starting from a copy of the first keyword's bucket. */
  function Matched(m: Index, kws: seq<string>): seq<int>
    requires |kws| >= 1
  {
    if |kws| == 1 then Lookup(m, kws[0])
    else RetainAll(Matched(m, kws[..|kws| - 1]), Lookup(m, kws[|kws| - 1]))
  }

  /** One more keyword intersects the result so far with its bucket. */
  lemma MatchedStep(m: Index, kws: seq<string>, i: nat)
    requires i < |kws|
    ensures Matched(m, kws[..i + 1])
            == if i == 0 then Lookup(m, kws[0]) else RetainAll(Matched(m, kws[..i]), Lookup(m, kws[i]))
  {
    assert kws[..i + 1][..i] == kws[..i];
  }

  /** Once the intersection is empty it stays empty, so stopping early changes nothing. */
  lemma {:induction false} MatchedStaysEmpty(m: Index, kws: seq<string>, i: nat)
    requires 1 <= i <= |kws| && Matched(m, kws[..i]) == []
    ensures Matched(m, kws) == []
    decreases |kws|
  {
    if i < |kws| {
      var init := kws[..|kws| - 1];
      assert init[..i] == kws[..i];
      MatchedStaysEmpty(m, init, i);
    } else {
      assert kws[..i] == kws;
    }
  }

  /** The holding's tokens include every keyword. */
  predicate HasAll(ws: seq<string>, kws: seq<string>) {
    forall k :: 0 <= k < |kws| ==> kws[k] in ws
  }

  /** Having every keyword is having all but the last and the last one too. */
  lemma HasAllLast(ws: seq<string>, kws: seq<string>)
    requires |kws| >= 1
    ensures HasAll(ws, kws) <==> HasAll(ws, kws[..|kws| - 1]) && kws[|kws| - 1] in ws
  {
    var init := kws[..|kws| - 1];
    if HasAll(ws, init) && kws[|kws| - 1] in ws {
      forall k | 0 <= k < |kws| ensures kws[k] in ws {
        if k < |init| {
          assert kws[k] == init[k];
        }
      }
    }
    if HasAll(ws, kws) {
      forall k | 0 <= k < |init| ensures init[k] in ws {
        assert init[k] == kws[k];
      }
    }
  }

  /** With a consistent index, a position survives the intersection exactly
      when the holding there has every keyword among its tokens. */
  lemma {:induction false} MatchedMembership(toks: seq<seq<string>>, kws: seq<string>, x: int)
    requires |kws| >= 1
    ensures x in Matched(IndexOf(toks), kws) <==> 0 <= x < |toks| && HasAll(toks[x], kws)
    decreases |kws|
  {
    var m := IndexOf(toks);
    var last := kws[|kws| - 1];
    LookupIndexOf(toks, last);
    BucketMembership(toks, last, 0, x);
    if |kws| > 1 {
      var init := kws[..|kws| - 1];
      MatchedMembership(toks, init, x);
    }
    if 0 <= x < |toks| {
      HasAllLast(toks[x], kws);
    }
  }

  lemma {:induction false} RetainAllSorted(xs: seq<int>, ys: seq<int>)
    requires IsSorted(xs)
    ensures IsSorted(RetainAll(xs, ys))
  {
    if xs != [] {
      RetainAllSorted(xs[1..], ys);
      var rest := RetainAll(xs[1..], ys);
      var r := RetainAll(xs, ys);
      forall i, k | 0 <= i < k < |r| ensures r[i] <= r[k] {
        if xs[0] in ys && i == 0 {
          assert r[k] == rest[k - 1] && rest[k - 1] in xs[1..];
        }
      }
    }
  }

  /** With a consistent index the intersection lists its positions in ascending order. */
  lemma {:induction false} MatchedSorted(toks: seq<seq<string>>, kws: seq<string>)
    requires |kws| >= 1
    ensures IsSorted(Matched(IndexOf(toks), kws))
    decreases |kws|
  {
    if |kws| == 1 {
      LookupIndexOf(toks, kws[0]);
      BucketSorted(toks, kws[0], 0);
    } else {
      MatchedSorted(toks, kws[..|kws| - 1]);
      RetainAllSorted(Matched(IndexOf(toks), kws[..|kws| - 1]), Lookup(IndexOf(toks), kws[|kws| - 1]));
    }
  }
}
