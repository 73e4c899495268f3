/** Codepoint-level text helpers of `utf8help` (utf8help/utf8help/utf8help.cpp).

    Text is a `string`, a sequence of Unicode scalar values, so a codepoint count is `|s|`.
    The source walks checked UTF-8 iterators: dereferencing or advancing one at the end of
    its range, or stepping one back from the start, throws `utf8::not_enough_room`. Those
    throws are the `Err(NotEnoughRoom)` results below. */
module Utf8Help {
  import opened Failures
  import opened Decimal

  /** A read position over an immutable text: the `utf8::iterator` that the reading helpers
      take by reference and advance. */
  class Cursor {
    const buf: string
    var pos: nat

    ghost predicate Valid()
      reads this
    {
      pos <= |buf|
    }

    /** An iterator at the first codepoint of `buf`. */
    constructor (buf: string)
      ensures Valid() && this.buf == buf && pos == 0
    {
      this.buf := buf;
      pos := 0;
    }
  }

  // ----- Trimming -----

  /** `s` without its trailing ' ' codepoints. */
  function RTrimmed(s: string): string
  {
    if s != [] && s[|s| - 1] == ' ' then RTrimmed(s[..|s| - 1]) else s
  }

  /** What trimming keeps and what it removes: a prefix of the input that is empty or ends
      in a codepoint other than ' ', followed in the input by nothing but spaces. */
  lemma {:induction false} RTrimmedShape(s: string)
    ensures |RTrimmed(s)| <= |s| && RTrimmed(s) == s[..|RTrimmed(s)|]
    ensures RTrimmed(s) == [] || RTrimmed(s)[|RTrimmed(s)| - 1] != ' '
    ensures forall k :: |RTrimmed(s)| <= k < |s| ==> s[k] == ' '
  {
    if s != [] && s[|s| - 1] == ' ' {
      RTrimmedShape(s[..|s| - 1]);
    }
  }

  /** The shape above determines the trimmed text: any split of `s` into a prefix that is
      empty or ends in a non-space and a suffix of spaces has `RTrimmed(s)` as its prefix. */
  lemma {:induction false} RTrimmedUnique(s: string, n: nat)
    requires n <= |s|
    requires n == 0 || s[n - 1] != ' '
    requires forall k :: n <= k < |s| ==> s[k] == ' '
    ensures RTrimmed(s) == s[..n]
  {
    if n < |s| {
      assert s[..|s| - 1][..n] == s[..n];
      RTrimmedUnique(s[..|s| - 1], n);
    } else {
      assert s[..n] == s;
    }
  }

  /** Trimming twice trims nothing more. */
  lemma RTrimmedIdempotent(s: string)
    ensures RTrimmed(RTrimmed(s)) == RTrimmed(s)
  {
    var t := RTrimmed(s);
    RTrimmedShape(s);
    RTrimmedUnique(t, |t|);
  }

  /** A text of spaces only (the empty text included) trims to nothing, and nothing else does. */
  lemma AllSpacesTrimToEmpty(s: string)
    ensures RTrimmed(s) == [] <==> forall k :: 0 <= k < |s| ==> s[k] == ' '
  {
    RTrimmedShape(s);
    if forall k :: 0 <= k < |s| ==> s[k] == ' ' {
      RTrimmedUnique(s, 0);
    }
  }

  /** Space padding added after a text is removed again by trimming. */
  lemma RTrimmedPadding(t: string, n: nat)
    ensures RTrimmed(t + Repeat(' ', n)) == RTrimmed(t)
  {
    var s := t + Repeat(' ', n);
    var r := RTrimmed(t);
    RTrimmedShape(t);
    assert s[..|r|] == r;
    RTrimmedUnique(s, |r|);
  }

  /** `RTrimSpace`: walk back from the last codepoint over spaces. On the empty text the first
      step back from the end already leaves the range and throws. */
  method RTrimSpace(s: string) returns (r: Result<string>)
    ensures r == if s == [] then Err(NotEnoughRoom) else Ok(RTrimmed(s))
  {
    if |s| == 0 {
      return Err(NotEnoughRoom);
    }
    var i := |s| - 1;
    assert s[..i + 1] == s;
    while s[i] == ' ' && i > 0
      invariant 0 <= i < |s|
      invariant RTrimmed(s[..i + 1]) == RTrimmed(s)
      decreases i
    {
      assert s[..i + 1][..i] == s[..i];
      i := i - 1;
    }
    var end := if s[i] == ' ' then i else i + 1;
    assert s[i] == ' ' ==> RTrimmed(s[..i + 1]) == s[..0];
    return Ok(s[..end]);
  }

  // ----- Per-codepoint mapping -----

  /** `Transform`: apply `f` to every codepoint, in order, appending to a new text. The
      loop is a do-while, so the empty text is dereferenced at its end and throws. */
  method Transform(s: string, f: char -> char) returns (r: Result<string>)
    ensures s == [] <==> r.Err?
    ensures r.Err? ==> r.error == NotEnoughRoom
    ensures r.Ok? ==> |r.value| == |s| && forall i :: 0 <= i < |s| ==> r.value[i] == f(s[i])
  {
    if |s| == 0 {
      return Err(NotEnoughRoom);
    }
    var result := [f(s[0])];
    var i := 1;
    while i != |s|
      invariant 1 <= i <= |s|
      invariant |result| == i
      invariant forall k :: 0 <= k < i ==> result[k] == f(s[k])
    {
      result := result + [f(s[i])];
      i := i + 1;
    }
    return Ok(result);
  }

  const UPPER_LETTERS: seq<char> := ['A', 'B', 'C', 'D', 'E', 'F', 'G', 'H', 'I', 'J', 'K', 'L', 'M',
                                     'N', 'O', 'P', 'Q', 'R', 'S', 'T', 'U', 'V', 'W', 'X', 'Y', 'Z']
  const LOWER_LETTERS: seq<char> := ['a', 'b', 'c', 'd', 'e', 'f', 'g', 'h', 'i', 'j', 'k', 'l', 'm',
                                     'n', 'o', 'p', 'q', 'r', 's', 't', 'u', 'v', 'w', 'x', 'y', 'z']

  predicate IsLowerAscii(c: char) { 'a' <= c <= 'z' }

  /** The per-codepoint map of `Upper`: a codepoint between the first and last entries of
      LOWER_LETTERS is replaced by the UPPER_LETTERS entry at the same offset. */
  function UpperChar(c: char): (u: char)
    ensures IsLowerAscii(c) ==> u as int == c as int - 32
    ensures !IsLowerAscii(c) ==> u == c
  {
    if LOWER_LETTERS[0] <= c <= LOWER_LETTERS[|LOWER_LETTERS| - 1] then
      UPPER_LETTERS[c as int - LOWER_LETTERS[0] as int]
    else
      c
  }

  /** The text `Upper` produces from a non-empty text. */
  function UpperString(s: string): string
  {
    seq(|s|, i requires 0 <= i < |s| => UpperChar(s[i]))
  }

  /** Upper-casing leaves no lower-case ASCII letter behind, and doing it again changes nothing. */
  lemma UpperStringIdempotent(s: string)
    ensures forall i :: 0 <= i < |s| ==> !IsLowerAscii(UpperString(s)[i])
    ensures UpperString(UpperString(s)) == UpperString(s)
  {
  }

  /** Only a space upper-cases to a space, so upper-casing and trimming commute. */
  lemma {:induction false} UpperCommutesWithTrim(s: string)
    ensures RTrimmed(UpperString(s)) == UpperString(RTrimmed(s))
  {
    if s != [] && s[|s| - 1] == ' ' {
      assert UpperString(s)[..|s| - 1] == UpperString(s[..|s| - 1]);
      UpperCommutesWithTrim(s[..|s| - 1]);
    } else if s != [] {
      assert UpperString(s)[|s| - 1] != ' ';
    }
  }

  /** `Upper`: `Transform` with the ASCII upper-casing map. */
  method Upper(s: string) returns (r: Result<string>)
    ensures r == if s == [] then Err(NotEnoughRoom) else Ok(UpperString(s))
  {
    r := Transform(s, UpperChar);
    if r.Ok? {
      assert r.value == UpperString(s);
    }
  }

  // ----- Reading through a cursor -----

  /** The first index at or after `from` holding `c`, if any. */
  function IndexOf(s: string, c: char, from: nat): (r: Option<nat>)
    requires from <= |s|
    ensures r.Some? ==> from <= r.value < |s| && s[r.value] == c
    ensures r.Some? ==> forall k :: from <= k < r.value ==> s[k] != c
    ensures r.None? ==> forall k :: from <= k < |s| ==> s[k] != c
    decreases |s| - from
  {
    if from == |s| then None
    else if s[from] == c then Some(from)
    else IndexOf(s, c, from + 1)
  }

  /** The first `c` at or after `from`, characterised: `IndexOf` finds `k` when `s[k]` is
      `c` and no `c` comes between `from` and `k`. */
  lemma {:induction false} IndexOfFirst(s: string, c: char, from: nat, k: nat)
    requires from <= k < |s| && s[k] == c
    requires forall j :: from <= j < k ==> s[j] != c
    ensures IndexOf(s, c, from) == Some(k)
    decreases k - from
  {
    if from < k {
      IndexOfFirst(s, c, from + 1, k);
    }
  }

  /** `IndexOf` finds nothing when no `c` comes at or after `from`. */
  lemma {:induction false} IndexOfAbsent(s: string, c: char, from: nat)
    requires from <= |s|
    requires forall j :: from <= j < |s| ==> s[j] != c
    ensures IndexOf(s, c, from) == None
    decreases |s| - from
  {
    if from < |s| {
      IndexOfAbsent(s, c, from + 1);
    }
  }

  /** `ReadString`: copy `count` codepoints, advancing the cursor past each. Running out of
      text throws with the cursor at the end; a negative count never reaches zero and so
      runs to the end too. */
  method ReadString(it: Cursor, count: int) returns (r: Result<string>)
    requires it.Valid()
    modifies it
    ensures it.Valid()
    ensures 0 <= count <= |it.buf| - old(it.pos) ==>
              r == Ok(it.buf[old(it.pos)..old(it.pos) + count]) && it.pos == old(it.pos) + count
    ensures !(0 <= count <= |it.buf| - old(it.pos)) ==> r == Err(NotEnoughRoom) && it.pos == |it.buf|
  {
    var result := "";
    var n := count;
    while n != 0
      invariant it.Valid() && old(it.pos) <= it.pos
      invariant result == it.buf[old(it.pos)..it.pos]
      invariant count >= 0 ==> 0 <= n && it.pos - old(it.pos) == count - n
      invariant count < 0 ==> n < 0
      decreases |it.buf| - it.pos
    {
      if it.pos == |it.buf| {
        return Err(NotEnoughRoom);
      }
      result := result + [it.buf[it.pos]];
      it.pos := it.pos + 1;
      n := n - 1;
    }
    return Ok(result);
  }

  /** `ReadNum`: `std::stoll` of the next `digits` codepoints. */
  method ReadNum(it: Cursor, digits: int) returns (r: Result<int>)
    requires it.Valid()
    modifies it
    ensures it.Valid()
    ensures 0 <= digits <= |it.buf| - old(it.pos) ==>
              r == StoLL(it.buf[old(it.pos)..old(it.pos) + digits]) && it.pos == old(it.pos) + digits
    ensures !(0 <= digits <= |it.buf| - old(it.pos)) ==> r == Err(NotEnoughRoom) && it.pos == |it.buf|
  {
    var s :- ReadString(it, digits);
    r := StoLL(s);
  }

  /** `AdvanceToNextLine`: step past codepoints up to and including the next '\n'. */
  method AdvanceToNextLine(it: Cursor) returns (r: Outcome)
    requires it.Valid()
    modifies it
    ensures it.Valid()
    ensures match IndexOf(it.buf, '\n', old(it.pos))
            case Some(k) => r == Pass && it.pos == k + 1
            case None => r == Fail(NotEnoughRoom) && it.pos == |it.buf|
  {
    while it.pos < |it.buf|
      invariant it.Valid() && old(it.pos) <= it.pos
      invariant forall k :: old(it.pos) <= k < it.pos ==> it.buf[k] != '\n'
      decreases |it.buf| - it.pos
    {
      var ch := it.buf[it.pos];
      it.pos := it.pos + 1;
      if ch == '\n' {
        IndexOfFirst(it.buf, '\n', old(it.pos), it.pos - 1);
        return Pass;
      }
    }
    IndexOfAbsent(it.buf, '\n', old(it.pos));
    return Fail(NotEnoughRoom);
  }

  /** `ReadUntil`: copy codepoints up to, not including, the next `endChar`, and leave the
      cursor on it. */
  method ReadUntil(it: Cursor, endChar: char) returns (r: Result<string>)
    requires it.Valid()
    modifies it
    ensures it.Valid()
    ensures match IndexOf(it.buf, endChar, old(it.pos))
            case Some(k) => r == Ok(it.buf[old(it.pos)..k]) && it.pos == k
            case None => r == Err(NotEnoughRoom) && it.pos == |it.buf|
    ensures r.Ok? ==> endChar !in r.value && it.buf[it.pos] == endChar
  {
    var result := "";
    while it.pos < |it.buf|
      invariant it.Valid() && old(it.pos) <= it.pos
      invariant result == it.buf[old(it.pos)..it.pos]
      invariant forall k :: old(it.pos) <= k < it.pos ==> it.buf[k] != endChar
      decreases |it.buf| - it.pos
    {
      var ch := it.buf[it.pos];
      if ch == endChar {
        IndexOfFirst(it.buf, endChar, old(it.pos), it.pos);
        return Ok(result);
      }
      result := result + [ch];
      it.pos := it.pos + 1;
    }
    IndexOfAbsent(it.buf, endChar, old(it.pos));
    return Err(NotEnoughRoom);
  }
}
