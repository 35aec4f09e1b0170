/** The two string operations of JavaScript the components use:
    `String.prototype.trim` and `String.prototype.split` on one character. */
module Text {

  /** ECMAScript's WhiteSpace and LineTerminator code points, the characters
      `trim` removes. */
  predicate IsWhitespace(c: char)
  {
    c == ' ' || c == '\t' || c == '\n' || c == '\r' || c == '\U{000B}' || c == '\U{000C}'
    || c == '\U{00A0}' || c == '\U{1680}' || ('\U{2000}' <= c <= '\U{200A}')
    || c == '\U{2028}' || c == '\U{2029}' || c == '\U{202F}' || c == '\U{205F}'
    || c == '\U{3000}' || c == '\U{FEFF}'
  }

  /** `s` without its leading whitespace. */
  function TrimStart(s: string): string
  {
    if s != [] && IsWhitespace(s[0]) then TrimStart(s[1..]) else s
  }

  /** `s` without its trailing whitespace. */
  function TrimEnd(s: string): string
  {
    if s != [] && IsWhitespace(s[|s| - 1]) then TrimEnd(s[..|s| - 1]) else s
  }

  /** `TrimStart` drops a whitespace-only prefix and stops at the first
      other character. */
  lemma {:induction false} TrimStartIsSuffix(s: string)
    ensures |TrimStart(s)| <= |s| && TrimStart(s) == s[|s| - |TrimStart(s)|..]
    ensures forall k :: 0 <= k < |s| - |TrimStart(s)| ==> IsWhitespace(s[k])
    ensures TrimStart(s) == [] || !IsWhitespace(TrimStart(s)[0])
  {
    if s != [] && IsWhitespace(s[0]) {
      var tail := s[1..];
      TrimStartIsSuffix(tail);
      var t := TrimStart(tail);
      assert TrimStart(s) == t;
      assert tail[|tail| - |t|..] == s[|s| - |t|..];
      forall k | 0 <= k < |s| - |t|
        ensures IsWhitespace(s[k])
      {
        if k > 0 {
          assert s[k] == tail[k - 1];
        }
      }
    }
  }

  /** `TrimEnd` drops a whitespace-only suffix and stops at the last other
      character. */
  lemma {:induction false} TrimEndIsPrefix(s: string)
    ensures |TrimEnd(s)| <= |s| && TrimEnd(s) == s[..|TrimEnd(s)|]
    ensures forall k :: |TrimEnd(s)| <= k < |s| ==> IsWhitespace(s[k])
    ensures TrimEnd(s) == [] || !IsWhitespace(TrimEnd(s)[|TrimEnd(s)| - 1])
  {
    if s != [] && IsWhitespace(s[|s| - 1]) {
      var front := s[..|s| - 1];
      TrimEndIsPrefix(front);
      var t := TrimEnd(front);
      assert TrimEnd(s) == t;
      assert front[..|t|] == s[..|t|];
      forall k | |t| <= k < |s|
        ensures IsWhitespace(s[k])
      {
        if k < |s| - 1 {
          assert s[k] == front[k];
        }
      }
    }
  }

  /** `r` is the slice of `s` that starts at `i`, and everything of `s`
      outside that slice is whitespace. */
  predicate IsCoreAt(s: string, i: nat, r: string)
  {
    && i + |r| <= |s| && r == s[i..i + |r|]
    && (forall k :: 0 <= k < i ==> IsWhitespace(s[k]))
    && (forall k :: i + |r| <= k < |s| ==> IsWhitespace(s[k]))
  }

  /** `s.trim()`: never longer than `s`, and neither starting nor ending
      with whitespace. */
  function Trim(s: string): (r: string)
    ensures |r| <= |s|
    ensures r == [] || (!IsWhitespace(r[0]) && !IsWhitespace(r[|r| - 1]))
  {
    TrimStartIsSuffix(s);
    TrimEndIsPrefix(TrimStart(s));
    TrimEnd(TrimStart(s))
  }

  /** `s.trim()` is the slice of `s` left after dropping whitespace at both
      ends; it neither starts nor ends with whitespace. */
  lemma TrimIsCore(s: string)
    ensures exists i :: IsCoreAt(s, i, Trim(s))
    ensures Trim(s) == [] || (!IsWhitespace(Trim(s)[0]) && !IsWhitespace(Trim(s)[|Trim(s)| - 1]))
  {
    var t := TrimStart(s);
    var r := TrimEnd(t);
    TrimStartIsSuffix(s);
    TrimEndIsPrefix(t);
    var i := |s| - |t|;
    assert r == s[i..i + |r|];
    assert forall k :: i + |r| <= k < |s| ==> s[k] == t[k - i];
    assert r == Trim(s) && IsCoreAt(s, i, r);
  }

  /** A string JavaScript treats as blank: `s.trim()` is the empty string. */
  predicate IsBlank(s: string)
  {
    Trim(s) == []
  }

  /** Trimming yields the empty string exactly when every character is
      whitespace. */
  lemma BlankIffAllWhitespace(s: string)
    ensures IsBlank(s) <==> forall k :: 0 <= k < |s| ==> IsWhitespace(s[k])
  {
    TrimIsCore(s);
    var r := Trim(s);
    var i: nat :| IsCoreAt(s, i, r);
    if r != [] {
      assert s[i] == r[0];
    }
  }

  /** The position of the first `c` in `s`. */
  function IndexOf(s: string, c: char): (i: nat)
    requires c in s
    ensures i < |s| && s[i] == c && c !in s[..i]
  {
    if s[0] == c then 0 else 1 + IndexOf(s[1..], c)
  }

  /** The inverse of `Split`: the pieces glued back with `sep` between them
      (`pieces.join(sep)`). */
  function Join(pieces: seq<string>, sep: char): string
    requires |pieces| >= 1
  {
    if |pieces| == 1 then pieces[0] else pieces[0] + [sep] + Join(pieces[1..], sep)
  }

  /** `s.split(sep)` for a one-character separator: the maximal runs of `s`
      free of `sep`, at least one (possibly empty) piece; a string without
      `sep` is a single piece. */
  function Split(s: string, sep: char): (r: seq<string>)
    ensures |r| >= 1
    ensures forall k :: 0 <= k < |r| ==> sep !in r[k]
    ensures Join(r, sep) == s
    decreases |s|
  {
    if sep !in s then [s]
    else
      var i := IndexOf(s, sep);
      var rest := Split(s[i + 1..], sep);
      assert s == s[..i] + [sep] + s[i + 1..];
      [s[..i]] + rest
  }

  /** Splitting at a separator that follows a separator-free head peels off
      that head. */
  lemma SplitAfterHead(head: string, sep: char, tail: string)
    requires sep !in head
    ensures Split(head + [sep] + tail, sep) == [head] + Split(tail, sep)
  {
    var s := head + [sep] + tail;
    assert s[|head|] == sep;
    assert s[..|head|] == head;
    var i := IndexOf(s, sep);
    assert s[..i] == head && s[i + 1..] == tail;
  }

  /** The first piece is everything up to the first separator. */
  lemma SplitFirstPiece(piece: string, sep: char, rest: string)
    requires sep !in piece
    requires rest == [] || rest[0] == sep
    ensures Split(piece + rest, sep)[0] == piece
  {
    if rest == [] {
      assert piece + rest == piece;
    } else {
      assert piece + rest == piece + [sep] + rest[1..];
      SplitAfterHead(piece, sep, rest[1..]);
    }
  }
}
