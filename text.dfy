/**
 * The few `java.lang.String` operations the configuration and command code relies on,
 * on strings as sequences of characters: case folding (restricted to ASCII letters),
 * `startsWith`, `trim`, `String.join` with a one-character separator and `split` on a
 * one-character delimiter.
 */
module Text {

  /** `Character.toLowerCase` on the ASCII letters; every other character is kept. */
  function LowerChar(c: char): char {
    if 'A' <= c <= 'Z' then (c as int + 32) as char else c
  }

  predicate IsUpperAscii(c: char) {
    'A' <= c <= 'Z'
  }

  /** `toLowerCase`, folding ASCII letters only, character by character. */
  function ToLower(s: string): (r: string)
    ensures |r| == |s|
  {
    seq(|s|, i requires 0 <= i < |s| => LowerChar(s[i]))
  }

  /** Folding leaves no upper-case letter, and changes nothing but the upper-case letters. */
  lemma ToLowerFolds(s: string)
    ensures forall i :: 0 <= i < |s| ==> !IsUpperAscii(ToLower(s)[i])
    ensures forall i :: 0 <= i < |s| ==> !IsUpperAscii(s[i]) ==> ToLower(s)[i] == s[i]
  {
  }

  /** `equalsIgnoreCase`: the same string once both are folded. */
  predicate EqualsIgnoreCase(a: string, b: string) {
    ToLower(a) == ToLower(b)
  }

  /** Folding twice is folding once. */
  lemma ToLowerIdempotent(s: string)
    ensures ToLower(ToLower(s)) == ToLower(s)
  {
    ToLowerFolds(s);
    LowerIsFixed(ToLower(s));
  }

  /** A string without upper-case letters is its own folding. */
  lemma LowerIsFixed(s: string)
    requires forall i :: 0 <= i < |s| ==> !IsUpperAscii(s[i])
    ensures ToLower(s) == s
  {
    ToLowerFolds(s);
  }

  /** Compared with a lower-case name, `equalsIgnoreCase` is equality after folding the argument. */
  lemma EqualsIgnoreCaseLower(a: string, name: string)
    requires forall i :: 0 <= i < |name| ==> !IsUpperAscii(name[i])
    ensures EqualsIgnoreCase(a, name) <==> ToLower(a) == name
  {
    LowerIsFixed(name);
  }

  /** Any casing of a name matches it. */
  lemma EqualsIgnoreCaseOfFolded(a: string)
    ensures EqualsIgnoreCase(a, ToLower(a))
  {
    ToLowerIdempotent(a);
  }

  /** `s.startsWith(p)`. */
  predicate StartsWith(s: string, p: string) {
    |p| <= |s| && s[..|p|] == p
  }

  /** The characters `trim` removes: every code unit up to and including the space. */
  predicate IsTrimmed(c: char) {
    c <= ' '
  }

  function TrimStart(s: string): (r: string)
    ensures |r| <= |s| && r == s[|s| - |r|..]
    ensures r != [] ==> !IsTrimmed(r[0])
    ensures forall i :: 0 <= i < |s| - |r| ==> IsTrimmed(s[i])
  {
    if s != [] && IsTrimmed(s[0]) then TrimStart(s[1..]) else s
  }

  function TrimEnd(s: string): (r: string)
    ensures |r| <= |s| && r == s[..|r|]
    ensures r != [] ==> !IsTrimmed(r[|r| - 1])
    ensures forall i :: |r| <= i < |s| ==> IsTrimmed(s[i])
  {
    if s != [] && IsTrimmed(s[|s| - 1]) then TrimEnd(s[..|s| - 1]) else s
  }

  /** `trim`: removes the control characters and spaces at both ends. */
  function Trim(s: string): string {
    TrimEnd(TrimStart(s))
  }

  /** A string is blank when it has nothing but spaces and control characters. */
  predicate IsBlank(s: string) {
    forall i :: 0 <= i < |s| ==> IsTrimmed(s[i])
  }

  /** `s.trim().length() > 0` exactly when `s` is not blank. */
  lemma TrimEmptyIffBlank(s: string)
    ensures |Trim(s)| == 0 <==> IsBlank(s)
  {
    var t := TrimStart(s);
    if |Trim(s)| == 0 {
      assert |t| == 0;
    } else {
      var r := Trim(s);
      assert !IsTrimmed(r[0]) && r[0] == t[0] == s[|s| - |t|];
    }
  }

  /** `String.join(sep, pieces)`. */
  function Join(pieces: seq<string>, sep: char): string {
    if pieces == [] then ""
    else if |pieces| == 1 then pieces[0]
    else pieces[0] + [sep] + Join(pieces[1..], sep)
  }

  /** Every piece of `s` between occurrences of `d`, the empty ones included. */
  function SplitAll(s: string, d: char): (r: seq<string>)
    ensures |r| >= 1
    ensures forall k :: 0 <= k < |r| ==> d !in r[k]
  {
    if s == [] then [""]
    else
      var tail := SplitAll(s[1..], d);
      if s[0] == d then [""] + tail
      else [[s[0]] + tail[0]] + tail[1..]
  }

  /** Joining the pieces back with the delimiter gives the string again. */
  lemma {:induction false} JoinSplitAll(s: string, d: char)
    ensures Join(SplitAll(s, d), d) == s
  {
    if s != [] {
      var tail := SplitAll(s[1..], d);
      JoinSplitAll(s[1..], d);
      if s[0] != d && |tail| > 1 {
        assert Join(tail, d) == tail[0] + [d] + Join(tail[1..], d);
        var r := SplitAll(s, d);
        assert r[1..] == tail[1..];
      }
    }
  }

  /** Splitting a join of delimiter-free pieces gives the pieces again. */
  lemma {:induction false} SplitAllJoin(pieces: seq<string>, d: char)
    requires |pieces| >= 1
    requires forall k :: 0 <= k < |pieces| ==> d !in pieces[k]
    ensures SplitAll(Join(pieces, d), d) == pieces
    decreases |pieces|, |pieces[0]|
  {
    if pieces[0] == [] {
      if |pieces| > 1 {
        assert Join(pieces, d) == [d] + Join(pieces[1..], d);
        SplitAllJoin(pieces[1..], d);
      }
    } else {
      var s := Join(pieces, d);
      var shorter := [pieces[0][1..]] + pieces[1..];
      assert s[0] == pieces[0][0];
      assert s[1..] == Join(shorter, d) by {
        if |pieces| > 1 {
          assert pieces[1..] == shorter[1..];
        }
      }
      assert forall k :: 0 <= k < |shorter| ==> d !in shorter[k] by {
        assert forall c :: c in pieces[0][1..] ==> c in pieces[0];
      }
      SplitAllJoin(shorter, d);
      assert [pieces[0][0]] + pieces[0][1..] == pieces[0];
    }
  }

  /** Drops the empty pieces at the end of a list. */
  function DropTrailingEmpty(ps: seq<string>): (r: seq<string>)
    ensures |r| <= |ps| && r == ps[..|r|]
    ensures r != [] ==> r[|r| - 1] != ""
    ensures forall k :: |r| <= k < |ps| ==> ps[k] == ""
  {
    if ps == [] then []
    else if ps[|ps| - 1] == "" then DropTrailingEmpty(ps[..|ps| - 1])
    else ps
  }

  /**
   * `s.split(d)` for a one-character delimiter: the string itself when the delimiter
   * does not occur, and otherwise its pieces with the trailing empty ones dropped.
   */
  function Split(s: string, d: char): seq<string> {
    if d !in s then [s] else DropTrailingEmpty(SplitAll(s, d))
  }

  /**
   * What `split` keeps: the pieces in order, up to the last non-empty one; every piece
   * it drops is empty, and no piece it keeps holds the delimiter.
   */
  lemma SplitKeepsLeadingPieces(s: string, d: char)
    ensures var r := Split(s, d);
      && r <= SplitAll(s, d)
      && (forall k :: |r| <= k < |SplitAll(s, d)| ==> SplitAll(s, d)[k] == "")
      && (forall k :: 0 <= k < |r| ==> d !in r[k])
      && (d in s && r != [] ==> r[|r| - 1] != "")
  {
    if d !in s {
      assert SplitAll(s, d) == [s] by {
        SplitAllWithoutDelimiter(s, d);
      }
    }
  }

  /** Without the delimiter, the whole string is the one piece. */
  lemma {:induction false} SplitAllWithoutDelimiter(s: string, d: char)
    requires d !in s
    ensures SplitAll(s, d) == [s]
  {
    if s != [] {
      assert d !in s[1..] by {
        assert forall c :: c in s[1..] ==> c in s;
      }
      SplitAllWithoutDelimiter(s[1..], d);
      assert s[0] != d;
      assert [s[0]] + s[1..] == s;
    }
  }

  /**
   * Split pieces joined back with the delimiter give the string minus its trailing
   * delimiters: nothing but the trailing empty pieces is lost.
   */
  lemma SplitJoinsBack(s: string, d: char)
    requires d in s
    ensures Join(Split(s, d), d) <= s
    ensures forall i :: |Join(Split(s, d), d)| <= i < |s| ==> s[i] == d
    ensures var j := Join(Split(s, d), d); j == [] || j[|j| - 1] != d
  {
    var all := SplitAll(s, d);
    var r := Split(s, d);
    JoinSplitAll(s, d);
    JoinDroppedEmpties(all, |r|, d);
    if r != [] {
      JoinEndsWithLastPiece(r, d);
    }
  }

  /** A join whose last piece is non-empty ends with that piece's last character. */
  lemma JoinEndsWithLastPiece(ps: seq<string>, d: char)
    requires ps != [] && ps[|ps| - 1] != ""
    ensures var j := Join(ps, d); var last := ps[|ps| - 1];
      j != [] && j[|j| - 1] == last[|last| - 1]
  {
    var front := ps[..|ps| - 1];
    JoinSnoc(front, ps[|ps| - 1], d);
    assert front + [ps[|ps| - 1]] == ps;
  }

  /** Joining a list whose pieces from `n` on are empty: the first `n` joined, then delimiters only. */
  lemma {:induction false} JoinDroppedEmpties(ps: seq<string>, n: nat, d: char)
    requires n <= |ps|
    requires forall k :: n <= k < |ps| ==> ps[k] == ""
    ensures Join(ps[..n], d) <= Join(ps, d)
    ensures forall i :: |Join(ps[..n], d)| <= i < |Join(ps, d)| ==> Join(ps, d)[i] == d
    decreases |ps|
  {
    if n < |ps| {
      var front := ps[..|ps| - 1];
      assert front[..n] == ps[..n];
      JoinDroppedEmpties(front, n, d);
      JoinSnoc(front, ps[|ps| - 1], d);
      assert front + [ps[|ps| - 1]] == ps;
    } else {
      assert ps[..n] == ps;
    }
  }

  /** Joining with one more piece at the end adds the delimiter and that piece. */
  lemma {:induction false} JoinSnoc(ps: seq<string>, p: string, d: char)
    ensures Join(ps + [p], d) == if ps == [] then p else Join(ps, d) + [d] + p
    decreases |ps|
  {
    if |ps| >= 1 {
      assert (ps + [p])[1..] == ps[1..] + [p];
      JoinSnoc(ps[1..], p, d);
    }
  }
}
