/**
 * The JavaScript string built-ins the scripts rely on: `String.prototype.trim`
 * and `split(/\s+/)`. Both use the ECMAScript notion of white space, the
 * WhiteSpace and LineTerminator code points, written out here in full.
 * Scans are by index into the one string, so that no slice is taken of a slice.
 */
module JsText {

  /** ECMAScript WhiteSpace (TAB, VT, FF, ZWNBSP, and category Zs) and LineTerminator (LF, CR, LS, PS). */
  predicate IsSpace(c: char)
  {
    || c == '\t' || c == '\n' || c == '\U{B}' || c == '\U{C}' || c == '\r' || c == ' '
    || c == '\U{A0}' || c == '\U{1680}' || ('\U{2000}' <= c <= '\U{200A}')
    || c == '\U{2028}' || c == '\U{2029}' || c == '\U{202F}' || c == '\U{205F}'
    || c == '\U{3000}' || c == '\U{FEFF}'
  }

  /** Every character of `s` in positions `lo` up to (excluding) `hi` is white space. */
  predicate SpaceIn(s: string, lo: int, hi: int)
  {
    forall k :: lo <= k < hi && 0 <= k < |s| ==> IsSpace(s[k])
  }

  /** No character of `s` in positions `lo` up to (excluding) `hi` is white space. */
  predicate WordIn(s: string, lo: int, hi: int)
  {
    forall k :: lo <= k < hi && 0 <= k < |s| ==> !IsSpace(s[k])
  }

  predicate AllSpace(s: string)
  {
    SpaceIn(s, 0, |s|)
  }

  predicate NoSpace(s: string)
  {
    WordIn(s, 0, |s|)
  }

  /** A string with no white space at either end, as `trim` leaves it. */
  predicate Trimmed(s: string)
  {
    s == [] || (!IsSpace(s[0]) && !IsSpace(s[|s| - 1]))
  }

  /** The end of the white-space run that starts at `i`. */
  function SpaceEnd(s: string, i: nat): (e: nat)
    requires i <= |s|
    ensures i <= e <= |s| && SpaceIn(s, i, e)
    ensures e < |s| ==> !IsSpace(s[e])
    decreases |s| - i
  {
    if i == |s| || !IsSpace(s[i]) then i else SpaceEnd(s, i + 1)
  }

  /** The end of the run of non-white-space characters that starts at `i`. */
  function WordEnd(s: string, i: nat): (e: nat)
    requires i <= |s|
    ensures i <= e <= |s| && WordIn(s, i, e)
    ensures e < |s| ==> IsSpace(s[e])
    decreases |s| - i
  {
    if i == |s| || IsSpace(s[i]) then i else WordEnd(s, i + 1)
  }

  /** The start of the white-space run that ends at `j`, going no further back than `lo`. */
  function SpaceStart(s: string, lo: nat, j: nat): (b: nat)
    requires lo <= j <= |s|
    ensures lo <= b <= j && SpaceIn(s, b, j)
    ensures b > lo ==> !IsSpace(s[b - 1])
    decreases j
  {
    if j == lo || !IsSpace(s[j - 1]) then j else SpaceStart(s, lo, j - 1)
  }

  /** The start of the run of non-white-space characters that ends at `j`. */
  function WordStart(s: string, j: nat): (b: nat)
    requires j <= |s|
    ensures b <= j && WordIn(s, b, j)
    ensures b > 0 ==> IsSpace(s[b - 1])
    decreases j
  {
    if j == 0 || IsSpace(s[j - 1]) then j else WordStart(s, j - 1)
  }

  /**
   * `s.trim()`: the string without its leading and trailing white space.
   * What is removed is white space and nothing else, and what is left has
   * no white space at either end.
   */
  function Trim(s: string): (r: string)
    ensures Trimmed(r)
    ensures r == [] <==> AllSpace(s)
    ensures var a := SpaceEnd(s, 0);
            a + |r| <= |s| && r == s[a..a + |r|] && SpaceIn(s, 0, a) && SpaceIn(s, a + |r|, |s|)
  {
    var a := SpaceEnd(s, 0);
    var b := SpaceStart(s, a, |s|);
    assert b > a ==> s[a..b][0] == s[a] && s[a..b][b - a - 1] == s[b - 1];
    s[a..b]
  }

  /** A string that already has no white space at its ends is left as it is. */
  lemma TrimOfTrimmed(s: string)
    requires Trimmed(s)
    ensures Trim(s) == s
  {
    assert SpaceEnd(s, 0) == 0;
  }

  lemma TrimIdempotent(s: string)
    ensures Trim(Trim(s)) == Trim(s)
  {
    TrimOfTrimmed(Trim(s));
  }

  /**
   * `s.split(/\s+/)`: the pieces between maximal white-space runs, in order.
   * A leading or trailing run yields an empty first or last piece, and the
   * empty string yields one empty piece, as in JavaScript.
   */
  function SplitWs(s: string): (parts: seq<string>)
    ensures |parts| >= 1
    ensures forall p :: p in parts ==> NoSpace(p)
  {
    SplitFrom(s, 0)
  }

  /** The pieces of `s[i..]`, where `i` is the start of a piece. */
  function SplitFrom(s: string, i: nat): (parts: seq<string>)
    requires i <= |s|
    ensures |parts| >= 1
    ensures forall p :: p in parts ==> NoSpace(p)
    decreases |s| - i
  {
    var e := WordEnd(s, i);
    if e == |s| then [s[i..]] else [s[i..e]] + SplitFrom(s, SpaceEnd(s, e))
  }

  /** Every non-white-space character of the string, in order. */
  function NonSpace(s: string): (r: string)
    ensures NoSpace(r)
  {
    if s == [] then []
    else (if IsSpace(s[0]) then [] else [s[0]]) + NonSpace(s[1..])
  }

  function Concat(parts: seq<string>): string
  {
    if parts == [] then [] else parts[0] + Concat(parts[1..])
  }

  lemma {:induction false} NonSpaceAppend(a: string, b: string)
    ensures NonSpace(a + b) == NonSpace(a) + NonSpace(b)
  {
    if a == [] {
      assert a + b == b;
    } else {
      assert (a + b)[0] == a[0];
      assert (a + b)[1..] == a[1..] + b;
      NonSpaceAppend(a[1..], b);
    }
  }

  lemma {:induction false} NonSpaceOfWord(s: string)
    requires NoSpace(s)
    ensures NonSpace(s) == s
  {
    if s != [] { NonSpaceOfWord(s[1..]); }
  }

  lemma {:induction false} NonSpaceOfSpace(s: string)
    requires AllSpace(s)
    ensures NonSpace(s) == []
  {
    if s != [] { NonSpaceOfSpace(s[1..]); }
  }

  lemma ConcatCons(p: string, ps: seq<string>)
    ensures Concat([p] + ps) == p + Concat(ps)
  {
    assert ([p] + ps)[1..] == ps;
  }

  /** Splitting loses exactly the white space: the pieces, glued back, are the non-space text. */
  lemma SplitWsKeepsText(s: string)
    ensures Concat(SplitWs(s)) == NonSpace(s)
  {
    SplitFromKeepsText(s, 0);
  }

  lemma {:induction false} SplitFromKeepsText(s: string, i: nat)
    requires i <= |s|
    ensures Concat(SplitFrom(s, i)) == NonSpace(s[i..])
    decreases |s| - i
  {
    var e := WordEnd(s, i);
    if e == |s| {
      NonSpaceOfWord(s[i..]);
      ConcatCons(s[i..], []);
    } else {
      SplitFromKeepsText(s, SpaceEnd(s, e));
      SplitFromKeepsTextStep(s, i);
    }
  }

  lemma SplitFromKeepsTextStep(s: string, i: nat)
    requires i <= |s| && WordEnd(s, i) < |s|
    requires var f := SpaceEnd(s, WordEnd(s, i)); Concat(SplitFrom(s, f)) == NonSpace(s[f..])
    ensures Concat(SplitFrom(s, i)) == NonSpace(s[i..])
  {
    var e := WordEnd(s, i);
    var f := SpaceEnd(s, e);
    var w, sep, rest := s[i..e], s[e..f], s[f..];
    assert SplitFrom(s, i) == [w] + SplitFrom(s, f);
    ConcatCons(w, SplitFrom(s, f));
    assert s[i..] == (w + sep) + rest;
    NonSpaceAppend(w + sep, rest);
    NonSpaceAppend(w, sep);
    NonSpaceOfWord(w);
    NonSpaceOfSpace(sep);
    assert NonSpace(w + sep) == w;
  }

  /** The first piece is the word that starts the string. */
  lemma SplitWsFirst(s: string)
    ensures SplitWs(s)[0] == s[..WordEnd(s, 0)]
  {
  }

  /** The last piece is the word that ends the string. */
  lemma SplitWsLast(s: string)
    ensures var parts := SplitWs(s); parts[|parts| - 1] == s[WordStart(s, |s|)..]
  {
    SplitFromLast(s, 0);
  }

  lemma {:induction false} SplitFromLast(s: string, i: nat)
    requires i <= |s|
    requires i > 0 ==> IsSpace(s[i - 1])
    ensures var parts := SplitFrom(s, i); parts[|parts| - 1] == s[WordStart(s, |s|)..]
    decreases |s| - i
  {
    var e := WordEnd(s, i);
    if e == |s| {
      WordStartAt(s, i, |s|);
    } else {
      var f := SpaceEnd(s, e);
      assert IsSpace(s[f - 1]);
      SplitFromLast(s, f);
      var tail := SplitFrom(s, f);
      var parts := SplitFrom(s, i);
      assert |parts| == |tail| + 1 && parts[|parts| - 1] == tail[|tail| - 1];
    }
  }

  /** Scanning back over a word stops exactly where the word starts. */
  lemma {:induction false} WordStartAt(s: string, i: nat, j: nat)
    requires i <= j <= |s| && WordIn(s, i, j)
    requires i > 0 ==> IsSpace(s[i - 1])
    ensures WordStart(s, j) == i
    decreases j
  {
    if j > i { WordStartAt(s, i, j - 1); }
  }

  /** On a trimmed, non-empty string every piece is a non-empty word. */
  lemma SplitWsTrimmedPieces(s: string)
    requires Trimmed(s) && s != []
    ensures forall p :: p in SplitWs(s) ==> p != []
  {
    SplitFromPieces(s, 0);
  }

  lemma {:induction false} SplitFromPieces(s: string, i: nat)
    requires Trimmed(s) && i < |s| && !IsSpace(s[i])
    ensures forall p :: p in SplitFrom(s, i) ==> p != []
    decreases |s| - i
  {
    var e := WordEnd(s, i);
    if e < |s| {
      var f := SpaceEnd(s, e);
      assert f < |s|;
      SplitFromPieces(s, f);
      assert SplitFrom(s, i) == [s[i..e]] + SplitFrom(s, f);
    }
  }

  /** A scan over a word stops at the first white space after it. */
  lemma {:induction false} WordEndAt(s: string, i: nat, e: nat)
    requires i <= e <= |s| && WordIn(s, i, e)
    requires e < |s| ==> IsSpace(s[e])
    ensures WordEnd(s, i) == e
    decreases e - i
  {
    if i < e { WordEndAt(s, i + 1, e); }
  }

  /** A scan over white space stops at the first character after it. */
  lemma {:induction false} SpaceEndAt(s: string, i: nat, e: nat)
    requires i <= e <= |s| && SpaceIn(s, i, e)
    requires e < |s| ==> !IsSpace(s[e])
    ensures SpaceEnd(s, i) == e
    decreases e - i
  {
    if i < e { SpaceEndAt(s, i + 1, e); }
  }

  /** Two words separated by one white-space run split into exactly those two words. */
  lemma SplitTwoWords(a: string, sep: string, b: string)
    requires a != [] && NoSpace(a) && sep != [] && AllSpace(sep) && b != [] && NoSpace(b)
    ensures SplitWs(a + sep + b) == [a, b]
  {
    var s := a + sep + b;
    WordEndAt(s, 0, |a|);
    SpaceEndAt(s, |a|, |a| + |sep|);
    WordEndAt(s, |a| + |sep|, |s|);
    assert s[0..|a|] == a && s[|a| + |sep|..] == b;
    assert SplitFrom(s, |a| + |sep|) == [b];
    assert SplitFrom(s, 0) == [a] + [b];
  }

  /** A single word splits into itself. */
  lemma SplitOneWord(a: string)
    requires NoSpace(a)
    ensures SplitWs(a) == [a]
  {
    WordEndAt(a, 0, |a|);
  }
}
