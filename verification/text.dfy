/** The parts of java.lang.String that the portfolio engine relies on:
    trim, ASCII case mapping, equalsIgnoreCase, startsWith, replace of one
    character and split (both on a literal character and on the whitespace
    pattern \s+), stated over seq<char>. */
module Text {

  /** A character that String.trim() removes: every code point up to U+0020. */
  predicate IsTrimmable(c: char) {
    c <= ' '
  }

  /** A character matched by the regular-expression class \s (ASCII only). */
  predicate IsSpace(c: char) {
    c == ' ' || c == '\t' || c == '\n' || c == '\U{B}' || c == '\U{C}' || c == '\r'
  }

  lemma SpaceIsTrimmable(c: char)
    ensures IsSpace(c) ==> IsTrimmable(c)
  {
  }

  function TrimLeft(s: string): (r: string)
    ensures |r| <= |s|
  {
    if s != [] && IsTrimmable(s[0]) then TrimLeft(s[1..]) else s
  }

  /** TrimLeft keeps a suffix of s and drops only trimmable characters. */
  lemma {:induction false} TrimLeftFacts(s: string)
    ensures var r := TrimLeft(s);
      && r == s[|s| - |r|..]
      && (forall k :: 0 <= k < |s| - |r| ==> IsTrimmable(s[k]))
      && (r != [] ==> !IsTrimmable(r[0]))
  {
    if s != [] && IsTrimmable(s[0]) {
      var r := TrimLeft(s[1..]);
      TrimLeftFacts(s[1..]);
      assert forall k :: 1 <= k < |s| - |r| ==> s[k] == s[1..][k - 1];
    }
  }

  function TrimRight(s: string): (r: string)
    ensures |r| <= |s|
  {
    if s != [] && IsTrimmable(s[|s| - 1]) then TrimRight(s[..|s| - 1]) else s
  }

  /** TrimRight keeps a prefix of s and drops only trimmable characters. */
  lemma {:induction false} TrimRightFacts(s: string)
    ensures var r := TrimRight(s);
      && r == s[..|r|]
      && (forall k :: |r| <= k < |s| ==> IsTrimmable(s[k]))
      && (r != [] ==> !IsTrimmable(r[|r| - 1]))
  {
    if s != [] && IsTrimmable(s[|s| - 1]) {
      TrimRightFacts(s[..|s| - 1]);
    }
  }

  /** String.trim(): drop the leading and trailing characters up to U+0020. */
  function Trim(s: string): (r: string)
    ensures |r| <= |s|
  {
    TrimRight(TrimLeft(s))
  }

  /** What trim keeps is the slice of s that starts at the first character
      that is not trimmable and ends at the last one: everything before and
      after it is trimmable, and its own ends are not. */
  lemma TrimFacts(s: string)
    ensures var i := |s| - |TrimLeft(s)|;
      var r := Trim(s);
      && i + |r| <= |s|
      && r == s[i..i + |r|]
      && (forall k :: 0 <= k < i ==> IsTrimmable(s[k]))
      && (forall k :: i + |r| <= k < |s| ==> IsTrimmable(s[k]))
      && (r != [] ==> !IsTrimmable(r[0]) && !IsTrimmable(r[|r| - 1]))
  {
    var l := TrimLeft(s);
    var r := TrimRight(l);
    var i := |s| - |l|;
    TrimLeftFacts(s);
    TrimRightFacts(l);
    SuffixPrefix(s, l, r, i);
  }

  /** A prefix r of the suffix l of s that starts at i is a slice of s, and
      what follows r in l is the end of s. */
  lemma SuffixPrefix(s: string, l: string, r: string, i: nat)
    requires i <= |s| && l == s[i..] && |r| <= |l| && r == l[..|r|]
    ensures r == s[i..i + |r|]
    ensures forall k :: i + |r| <= k < |s| ==> s[k] == l[k - i]
    ensures r != [] ==> r[0] == l[0]
  {
  }

  /** True when s has nothing left after trimming (what the source calls blank). */
  predicate IsBlank(s: string) {
    Trim(s) == []
  }

  lemma {:induction false} TrimmedUnchanged(s: string)
    requires s == [] || (!IsTrimmable(s[0]) && !IsTrimmable(s[|s| - 1]))
    ensures Trim(s) == s
  {
  }

  lemma TrimIdempotent(s: string)
    ensures Trim(Trim(s)) == Trim(s)
  {
    TrimFacts(s);
    TrimmedUnchanged(Trim(s));
  }

  lemma {:induction false} BlankIffAllTrimmable(s: string)
    ensures IsBlank(s) <==> forall k :: 0 <= k < |s| ==> IsTrimmable(s[k])
  {
    TrimFacts(s);
    if !IsBlank(s) {
      var i := |s| - |TrimLeft(s)|;
      assert s[i] == Trim(s)[0];
    }
  }

  function ToLowerChar(c: char): char {
    if 'A' <= c <= 'Z' then (c as int + 32) as char else c
  }

  function ToUpperChar(c: char): char {
    if 'a' <= c <= 'z' then (c as int - 32) as char else c
  }

  /** Lower-casing neither makes nor unmakes whitespace. */
  lemma LowerKeepsSpace(c: char)
    ensures IsSpace(ToLowerChar(c)) <==> IsSpace(c)
  {
  }

  /** String.toLowerCase() restricted to ASCII letters. */
  function ToLower(s: string): (r: string)
    ensures |r| == |s|
    ensures forall k {:trigger r[k]} :: 0 <= k < |s| ==> r[k] == ToLowerChar(s[k])
  {
    if s == [] then [] else [ToLowerChar(s[0])] + ToLower(s[1..])
  }

  /** String.toUpperCase() restricted to ASCII letters. */
  function ToUpper(s: string): (r: string)
    ensures |r| == |s|
    ensures forall k {:trigger r[k]} :: 0 <= k < |s| ==> r[k] == ToUpperChar(s[k])
  {
    if s == [] then [] else [ToUpperChar(s[0])] + ToUpper(s[1..])
  }

  predicate IsLowerCase(s: string) {
    forall k :: 0 <= k < |s| ==> !('A' <= s[k] <= 'Z')
  }

  /** Character comparison of String.equalsIgnoreCase: equal, or equal after
      mapping both to upper case, or equal after mapping both to lower case. */
  predicate CharEqualsIgnoreCase(a: char, b: char) {
    a == b || ToUpperChar(a) == ToUpperChar(b) || ToLowerChar(a) == ToLowerChar(b)
  }

  predicate EqualsIgnoreCase(a: string, b: string) {
    |a| == |b| && forall k :: 0 <= k < |a| ==> CharEqualsIgnoreCase(a[k], b[k])
  }

  /** For ASCII case mapping, equalsIgnoreCase is equality of the upper-cased strings. */
  lemma {:induction false} EqualsIgnoreCaseIffSameUpper(a: string, b: string)
    ensures EqualsIgnoreCase(a, b) <==> ToUpper(a) == ToUpper(b)
  {
    if ToUpper(a) == ToUpper(b) {
      forall k | 0 <= k < |a| ensures CharEqualsIgnoreCase(a[k], b[k]) {
        assert ToUpper(a)[k] == ToUpper(b)[k];
      }
    }
  }

  predicate StartsWith(s: string, prefix: string) {
    |prefix| <= |s| && s[..|prefix|] == prefix
  }

  /** String.replace(c, ""): every occurrence of c removed. */
  function RemoveChar(s: string, c: char): (r: string)
    ensures c !in r
    ensures |r| <= |s|
    ensures c !in s ==> r == s
  {
    if s == [] then [] else (if s[0] == c then [] else [s[0]]) + RemoveChar(s[1..], c)
  }

  lemma {:induction false} RemoveCharConcat(a: string, b: string, c: char)
    ensures RemoveChar(a + b, c) == RemoveChar(a, c) + RemoveChar(b, c)
  {
    if a != [] {
      RemoveCharHead(a, b, c);
      RemoveCharConcat(a[1..], b, c);
      var ra, rb := RemoveChar(a[1..], c), RemoveChar(b, c);
      if a[0] != c {
        assert [a[0]] + (ra + rb) == ([a[0]] + ra) + rb;
      }
    } else {
      assert a + b == b;
    }
  }

  /** Removing from a + b starts with what becomes of a's first character. */
  lemma RemoveCharHead(a: string, b: string, c: char)
    requires a != []
    ensures RemoveChar(a + b, c) == (if a[0] == c then [] else [a[0]]) + RemoveChar(a[1..] + b, c)
  {
    assert (a + b)[0] == a[0];
    assert (a + b)[1..] == a[1..] + b;
  }

  function Concat(ps: seq<string>): (r: string)
  {
    if ps == [] then [] else ps[0] + Concat(ps[1..])
  }

  /** Java's String.split drops the empty strings at the end of the result. */
  function DropTrailingEmpty(ps: seq<string>): (r: seq<string>)
    ensures |r| <= |ps| && r == ps[..|r|]
    ensures r != [] ==> r[|r| - 1] != []
    ensures forall k :: |r| <= k < |ps| ==> ps[k] == []
  {
    if ps != [] && ps[|ps| - 1] == [] then DropTrailingEmpty(ps[..|ps| - 1]) else ps
  }

  /** The pieces of s between the occurrences of c, before empty pieces at the end are dropped. */
  function PiecesOn(s: string, c: char): (r: seq<string>)
    ensures |r| >= 1
  {
    if s == [] then [[]]
    else
      var p := PiecesOn(s[1..], c);
      if s[0] == c then [[]] + p else [[s[0]] + p[0]] + p[1..]
  }

  /** String.split(String) for a separator that is one literal character. */
  function SplitOn(s: string, c: char): seq<string> {
    if c !in s then [s] else DropTrailingEmpty(PiecesOn(s, c))
  }

  lemma {:induction false} PiecesOnWithout(s: string, c: char)
    requires c !in s
    ensures PiecesOn(s, c) == [s]
  {
    if s != [] {
      PiecesOnWithout(s[1..], c);
      assert [s[0]] + s[1..] == s;
    }
  }

  lemma {:induction false} PiecesOnOne(a: string, b: string, c: char)
    requires c !in a && c !in b
    ensures PiecesOn(a + [c] + b, c) == [a, b]
  {
    if a == [] {
      assert (a + [c] + b)[1..] == b;
      PiecesOnWithout(b, c);
    } else {
      assert (a + [c] + b)[1..] == a[1..] + [c] + b;
      PiecesOnOne(a[1..], b, c);
      assert [a[0]] + a[1..] == a;
    }
  }

  /** Splitting a line that holds exactly one separator, with text after it, gives the two sides. */
  lemma SplitOnOne(a: string, b: string, c: char)
    requires c !in a && c !in b && b != []
    ensures SplitOn(a + [c] + b, c) == [a, b]
  {
    assert (a + [c] + b)[|a|] == c;
    PiecesOnOne(a, b, c);
  }

  /** The text left after the leading run of \s characters. */
  function DropSpaces(s: string): (r: string)
    ensures |r| <= |s| && r == s[|s| - |r|..]
    ensures forall k :: 0 <= k < |s| - |r| ==> IsSpace(s[k])
    ensures r != [] ==> !IsSpace(r[0])
  {
    if s != [] && IsSpace(s[0]) then
      var r := DropSpaces(s[1..]);
      assert forall k :: 1 <= k < |s| - |r| ==> s[k] == s[1..][k - 1];
      r
    else s
  }

  /** The pieces of s between maximal runs of \s characters, before empty
      pieces at the end are dropped: a leading run gives a leading empty piece. */
  function SpacePieces(s: string): (r: seq<string>)
    ensures |r| >= 1
    decreases |s|
  {
    if s == [] then [[]]
    else if IsSpace(s[0]) then [[]] + SpacePieces(DropSpaces(s[1..]))
    else
      var p := SpacePieces(s[1..]);
      [[s[0]] + p[0]] + p[1..]
  }

  predicate HasSpace(s: string) {
    exists k :: 0 <= k < |s| && IsSpace(s[k])
  }

  /** String.split("\\s+"). */
  function SplitSpaces(s: string): seq<string> {
    if !HasSpace(s) then [s] else DropTrailingEmpty(SpacePieces(s))
  }

  /** The tokeniser of the keyword index: nothing for a blank string,
      otherwise the lower-cased string split on runs of whitespace. */
  function SplitWords(s: string): seq<string> {
    if IsBlank(s) then [] else SplitSpaces(ToLower(s))
  }

  /** The characters of s that are not \s, in order. */
  function NonSpaces(s: string): string {
    if s == [] then [] else (if IsSpace(s[0]) then [] else [s[0]]) + NonSpaces(s[1..])
  }

  lemma {:induction false} NonSpacesOfSpaces(s: string)
    requires forall k :: 0 <= k < |s| ==> IsSpace(s[k])
    ensures NonSpaces(s) == []
  {
    if s != [] {
      NonSpacesOfSpaces(s[1..]);
    }
  }

  lemma {:induction false} NonSpacesDrop(s: string)
    ensures NonSpaces(DropSpaces(s)) == NonSpaces(s)
  {
    if s != [] && IsSpace(s[0]) {
      NonSpacesDrop(s[1..]);
    }
  }

  /** Every character of every piece is a non-whitespace character of s. */
  lemma {:induction false} PieceChars(s: string, i: nat, k: nat)
    requires i < |SpacePieces(s)| && k < |SpacePieces(s)[i]|
    ensures !IsSpace(SpacePieces(s)[i][k]) && SpacePieces(s)[i][k] in s
    decreases |s|
  {
    if s == [] {
    } else if IsSpace(s[0]) {
      var d := DropSpaces(s[1..]);
      PieceChars(d, i - 1, k);
      var x := SpacePieces(d)[i - 1][k];
      var j :| 0 <= j < |d| && d[j] == x;
      assert s[|s| - |d| + j] == x;
    } else if i == 0 && k == 0 {
    } else if i == 0 {
      PieceChars(s[1..], 0, k - 1);
    } else {
      PieceChars(s[1..], i, k);
    }
  }

  /** No piece but the first and the last is empty, and the first is empty
      exactly when s starts with whitespace. */
  lemma {:induction false} InnerPiecesNonEmpty(s: string)
    ensures forall i :: 0 < i < |SpacePieces(s)| - 1 ==> SpacePieces(s)[i] != []
    ensures s != [] ==> (SpacePieces(s)[0] == [] <==> IsSpace(s[0]))
    decreases |s|
  {
    if s == [] {
    } else if IsSpace(s[0]) {
      var d := DropSpaces(s[1..]);
      InnerPiecesNonEmpty(d);
      var q := SpacePieces(d);
      var p := SpacePieces(s);
      assert p == [[]] + q;
      assert d == [] ==> |q| == 1;
      forall i | 0 < i < |p| - 1 ensures p[i] != [] {
        assert p[i] == q[i - 1];
      }
    } else {
      InnerPiecesNonEmpty(s[1..]);
      var q := SpacePieces(s[1..]);
      var p := SpacePieces(s);
      assert p == [[s[0]] + q[0]] + q[1..];
      forall i | 0 < i < |p| - 1 ensures p[i] != [] {
        assert p[i] == q[i];
      }
    }
  }

  /** The pieces put together are the non-whitespace characters of s. */
  lemma {:induction false} PiecesConcat(s: string)
    ensures Concat(SpacePieces(s)) == NonSpaces(s)
    decreases |s|
  {
    if s == [] {
    } else if IsSpace(s[0]) {
      var d := DropSpaces(s[1..]);
      PiecesConcat(d);
      NonSpacesDrop(s[1..]);
      var q := SpacePieces(d);
      assert SpacePieces(s) == [[]] + q;
      assert ([[]] + q)[1..] == q;
    } else {
      var q := SpacePieces(s[1..]);
      PiecesConcat(s[1..]);
      var p := SpacePieces(s);
      assert p == [[s[0]] + q[0]] + q[1..];
      assert p[1..] == q[1..];
      calc {
        Concat(p);
        ([s[0]] + q[0]) + Concat(q[1..]);
        [s[0]] + (q[0] + Concat(q[1..]));
        { assert q == [q[0]] + q[1..]; }
        [s[0]] + Concat(q);
      }
    }
  }

  lemma {:induction false} ConcatOfEmpties(ps: seq<string>)
    requires forall k :: 0 <= k < |ps| ==> ps[k] == []
    ensures Concat(ps) == []
  {
    if ps != [] {
      ConcatOfEmpties(ps[1..]);
    }
  }

  lemma {:induction false} ConcatPrefixOfEmpties(ps: seq<string>, n: nat)
    requires n <= |ps|
    requires forall k :: n <= k < |ps| ==> ps[k] == []
    ensures Concat(ps[..n]) == Concat(ps)
    decreases |ps|
  {
    if n == 0 {
      ConcatOfEmpties(ps);
    } else {
      assert ps[1..][..n - 1] == ps[..n][1..];
      ConcatPrefixOfEmpties(ps[1..], n - 1);
      assert ps[..n][0] == ps[0];
    }
  }

  lemma {:induction false} NonSpacesWithout(s: string)
    requires forall k :: 0 <= k < |s| ==> !IsSpace(s[k])
    ensures NonSpaces(s) == s
  {
    if s != [] {
      NonSpacesWithout(s[1..]);
    }
  }

  lemma {:induction false} NonSpacesKeeps(s: string, k: nat)
    requires k < |s| && !IsSpace(s[k])
    ensures NonSpaces(s) != []
  {
    if k > 0 && IsSpace(s[0]) {
      NonSpacesKeeps(s[1..], k - 1);
    }
  }

  lemma SplitSpacesChars(l: string, i: nat, k: nat)
    requires i < |SplitSpaces(l)| && k < |SplitSpaces(l)[i]|
    ensures !IsSpace(SplitSpaces(l)[i][k]) && SplitSpaces(l)[i][k] in l
  {
    if HasSpace(l) {
      PieceChars(l, i, k);
    } else {
      assert SplitSpaces(l)[i] == l;
    }
  }

  /** Every token is lower case and free of whitespace. */
  lemma SplitWordsChars(s: string, i: nat, k: nat)
    requires i < |SplitWords(s)| && k < |SplitWords(s)[i]|
    ensures !IsSpace(SplitWords(s)[i][k]) && !('A' <= SplitWords(s)[i][k] <= 'Z')
  {
    var l := ToLower(s);
    assert SplitWords(s) == SplitSpaces(l);
    SplitSpacesChars(l, i, k);
  }

  lemma {:induction false} SplitSpacesConcat(l: string)
    ensures Concat(SplitSpaces(l)) == NonSpaces(l)
  {
    if !HasSpace(l) {
      NonSpacesWithout(l);
      assert Concat([l]) == l + [];
    } else {
      var p := SpacePieces(l);
      PiecesConcat(l);
      ConcatPrefixOfEmpties(p, |SplitSpaces(l)|);
    }
  }

  /** A string yields no tokens exactly when it is blank, and the tokens of a
      string that is not blank spell it, lower-cased, with its whitespace removed. */
  lemma {:induction false} SplitWordsConcat(s: string)
    ensures SplitWords(s) == [] <==> IsBlank(s)
    ensures !IsBlank(s) ==> Concat(SplitWords(s)) == NonSpaces(ToLower(s))
  {
    if !IsBlank(s) {
      var l := ToLower(s);
      assert SplitWords(s) == SplitSpaces(l);
      SplitSpacesConcat(l);
      BlankIffAllTrimmable(s);
      var k :| 0 <= k < |s| && !IsTrimmable(s[k]);
      assert l[k] == ToLowerChar(s[k]);
      SpaceIsTrimmable(s[k]);
      LowerKeepsSpace(s[k]);
      NonSpacesKeeps(l, k);
    }
  }

  /** A string that does not start with whitespace or a control character
      (a trimmed name) yields no empty token. */
  lemma NoEmptyToken(s: string)
    requires s != [] && !IsTrimmable(s[0])
    ensures forall i :: 0 <= i < |SplitWords(s)| ==> SplitWords(s)[i] != []
  {
    var l := ToLower(s);
    assert !IsBlank(s) by { BlankIffAllTrimmable(s); }
    assert !IsSpace(l[0]);
    if HasSpace(l) {
      InnerPiecesNonEmpty(l);
    }
  }

  /** Words written out with one space between each pair. */
  function JoinWords(ws: seq<string>): (r: string)
    requires ws != []
    decreases |ws|
  {
    if |ws| == 1 then ws[0] else ws[0] + [' '] + JoinWords(ws[1..])
  }

  /** A string with no whitespace is a single piece. */
  lemma {:induction false} SpacePiecesOfWord(w: string)
    requires !HasSpace(w)
    ensures SpacePieces(w) == [w]
  {
    if w != [] {
      assert !HasSpace(w[1..]) by {
        forall k | 0 <= k < |w[1..]| ensures !IsSpace(w[1..][k]) {
          assert w[1..][k] == w[k + 1];
        }
      }
      SpacePiecesOfWord(w[1..]);
      assert [w[0]] + w[1..] == w;
    }
  }

  /** A word, one space and text that does not start with whitespace split
      into the word and the pieces of that text. */
  lemma {:induction false} SpacePiecesAfterWord(w: string, rest: string)
    requires !HasSpace(w)
    requires rest == [] || !IsSpace(rest[0])
    ensures SpacePieces(w + [' '] + rest) == [w] + SpacePieces(rest)
    decreases |w|
  {
    var s := w + [' '] + rest;
    if w == [] {
      assert s == [' '] + rest && s[1..] == rest;
      assert DropSpaces(rest) == rest;
    } else {
      assert !HasSpace(w[1..]) by {
        forall k | 0 <= k < |w[1..]| ensures !IsSpace(w[1..][k]) {
          assert w[1..][k] == w[k + 1];
        }
      }
      assert s[0] == w[0] && !IsSpace(s[0]);
      assert s[1..] == w[1..] + [' '] + rest;
      SpacePiecesAfterWord(w[1..], rest);
      assert [w[0]] + w[1..] == w;
    }
  }

  /** The pieces of words joined by single spaces are those words. */
  lemma {:induction false} SpacePiecesJoin(ws: seq<string>)
    requires ws != []
    requires forall i :: 0 <= i < |ws| ==> ws[i] != [] && !HasSpace(ws[i])
    ensures SpacePieces(JoinWords(ws)) == ws
    decreases |ws|
  {
    if |ws| == 1 {
      SpacePiecesOfWord(ws[0]);
    } else {
      var rest := JoinWords(ws[1..]);
      SpacePiecesJoin(ws[1..]);
      JoinStartsWithWord(ws[1..]);
      assert rest[0] == ws[1][0] && !IsSpace(ws[1][0]);
      SpacePiecesAfterWord(ws[0], rest);
      assert [ws[0]] + ws[1..] == ws;
    }
  }

  /** Joined words start with the first word. */
  lemma {:induction false} JoinStartsWithWord(ws: seq<string>)
    requires ws != []
    ensures JoinWords(ws)[..|ws[0]|] == ws[0]
  {
  }

  /** Joined lower-case words are lower case. */
  lemma {:induction false} JoinLowerCase(ws: seq<string>)
    requires ws != []
    requires forall i :: 0 <= i < |ws| ==> IsLowerCase(ws[i])
    ensures IsLowerCase(JoinWords(ws))
    decreases |ws|
  {
    if |ws| > 1 {
      JoinLowerCase(ws[1..]);
      var a, b := ws[0], JoinWords(ws[1..]);
      var s := a + [' '] + b;
      forall k | 0 <= k < |s| ensures !('A' <= s[k] <= 'Z') {
        if k < |a| {
          assert s[k] == a[k];
        } else if k > |a| {
          assert s[k] == b[k - |a| - 1];
        }
      }
    }
  }

  /** Lower-casing leaves a lower-case string as it is. */
  lemma LowerOfLowerCase(s: string)
    requires IsLowerCase(s)
    ensures ToLower(s) == s
  {
    assert forall k :: 0 <= k < |s| ==> ToLower(s)[k] == s[k];
  }

  /** Split on whitespace runs, words joined by single spaces come back. */
  lemma SplitSpacesJoin(ws: seq<string>)
    requires ws != []
    requires forall i :: 0 <= i < |ws| ==> ws[i] != [] && !HasSpace(ws[i])
    ensures SplitSpaces(JoinWords(ws)) == ws
  {
    var s := JoinWords(ws);
    SpacePiecesJoin(ws);
    if |ws| == 1 {
      assert SplitSpaces(s) == [ws[0]];
    } else {
      JoinHasSpace(ws);
      assert ws[|ws| - 1] != [];
      assert DropTrailingEmpty(ws) == ws;
    }
  }

  /** Two or more joined words hold a space. */
  lemma JoinHasSpace(ws: seq<string>)
    requires |ws| > 1
    ensures HasSpace(JoinWords(ws))
  {
    var s := JoinWords(ws);
    assert s == ws[0] + [' '] + JoinWords(ws[1..]);
    assert s[|ws[0]|] == ' ';
  }

  /** Splitting undoes joining: lower-case words free of whitespace, written
      out with single spaces, are split back into exactly those words (unless
      every character is a control character, when the text is blank and
      gives no tokens). So tokens break exactly at the whitespace runs. */
  lemma SplitWordsJoin(ws: seq<string>)
    requires ws != []
    requires forall i :: 0 <= i < |ws| ==> ws[i] != [] && !HasSpace(ws[i]) && IsLowerCase(ws[i])
    ensures SplitWords(JoinWords(ws)) == if IsBlank(JoinWords(ws)) then [] else ws
  {
    JoinLowerCase(ws);
    LowerOfLowerCase(JoinWords(ws));
    SplitSpacesJoin(ws);
  }
}
