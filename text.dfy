/**
 * The JavaScript string and array operations the server and client code rely on:
 * `split` with a one-character separator, `join`, `indexOf`, `slice`,
 * `lastIndexOf`, `substring`, `trim`, `toLowerCase` and substring search.
 * Each function follows the ECMAScript definition of the operation for the
 * arguments the code passes to it.
 */
module Text {

  // ---------------------------------------------------------------------------
  // split and join
  // ---------------------------------------------------------------------------

  /** `parts.join(sep)`: the parts with `sep` between each two neighbours. */
  function Join(parts: seq<string>, sep: string): string
  {
    if |parts| == 0 then ""
    else if |parts| == 1 then parts[0]
    else parts[0] + sep + Join(parts[1..], sep)
  }

  /**
   * `s.split(sep)` for a one-character separator: the maximal runs of `s`
   * that do not contain `sep`, in order. There is always at least one part
   * (`"".split("/")` is `[""]`) and joining the parts gives `s` back.
   */
  function Split(s: string, sep: char): (parts: seq<string>)
    ensures |parts| >= 1
    ensures forall i :: 0 <= i < |parts| ==> sep !in parts[i]
    ensures Join(parts, [sep]) == s
  {
    if s == [] then [""]
    else
      var rest := Split(s[1..], sep);
      if s[0] == sep then
        [""] + rest
      else
        assert Join([[s[0]] + rest[0]] + rest[1..], [sep]) == [s[0]] + Join(rest, [sep]);
        [[s[0]] + rest[0]] + rest[1..]
  }

  lemma {:induction false} SplitWithoutSeparator(a: string, sep: char)
    requires sep !in a
    ensures Split(a, sep) == [a]
  {
    if a != [] {
      SplitWithoutSeparator(a[1..], sep);
    }
  }

  lemma {:induction false} SplitAtSeparator(a: string, b: string, sep: char)
    requires sep !in a
    ensures Split(a + [sep] + b, sep) == [a] + Split(b, sep)
  {
    if a == [] {
      assert a + [sep] + b == [sep] + b;
      assert ([sep] + b)[1..] == b;
    } else {
      assert (a + [sep] + b)[1..] == a[1..] + [sep] + b;
      SplitAtSeparator(a[1..], b, sep);
      assert [a[0]] + a[1..] == a;
    }
  }

  /** Splitting a join gives the parts back when no part holds the separator. */
  lemma {:induction false} SplitJoin(parts: seq<string>, sep: char)
    requires |parts| >= 1
    requires forall i :: 0 <= i < |parts| ==> sep !in parts[i]
    ensures Split(Join(parts, [sep]), sep) == parts
  {
    if |parts| == 1 {
      SplitWithoutSeparator(parts[0], sep);
    } else {
      SplitJoin(parts[1..], sep);
      SplitAtSeparator(parts[0], Join(parts[1..], [sep]), sep);
      assert [parts[0]] + parts[1..] == parts;
    }
  }

  /** Joining `xs + ys` puts one separator between the two joins. */
  lemma {:induction false} JoinAppend(xs: seq<string>, ys: seq<string>, sep: string)
    requires |xs| >= 1 && |ys| >= 1
    ensures Join(xs + ys, sep) == Join(xs, sep) + sep + Join(ys, sep)
  {
    if |xs| == 1 {
      assert (xs + ys)[1..] == ys;
    } else {
      assert (xs + ys)[1..] == xs[1..] + ys;
      JoinAppend(xs[1..], ys, sep);
    }
  }

  /** Text appended to the last part of a join is appended to the join. */
  lemma {:induction false} JoinExtendLast(xs: seq<string>, a: string, tail: string, sep: string)
    ensures Join(xs + [a + tail], sep) == Join(xs + [a], sep) + tail
  {
    if xs != [] {
      assert (xs + [a + tail])[1..] == xs[1..] + [a + tail];
      assert (xs + [a])[1..] == xs[1..] + [a];
      JoinExtendLast(xs[1..], a, tail, sep);
    }
  }

  // ---------------------------------------------------------------------------
  // indexOf, slice, lastIndexOf, substring
  // ---------------------------------------------------------------------------

  /** `parts.indexOf(x)`: the first index holding `x`, or -1. */
  function IndexOf(parts: seq<string>, x: string): (r: int)
    ensures -1 <= r < |parts|
    ensures r >= 0 ==> parts[r] == x && x !in parts[..r]
    ensures r == -1 <==> x !in parts
  {
    if parts == [] then -1
    else if parts[0] == x then 0
    else
      var r := IndexOf(parts[1..], x);
      assert parts == [parts[0]] + parts[1..];
      if r == -1 then -1
      else
        assert parts[..r + 1] == [parts[0]] + parts[1..][..r];
        r + 1
  }

  /**
   * `parts.slice(start)`: a negative start counts from the end (and stops at
   * the front), a start past the end gives the empty sequence.
   */
  function Slice<T>(parts: seq<T>, start: int): (r: seq<T>)
    ensures 0 <= start <= |parts| ==> r == parts[start..]
    ensures -|parts| <= start < 0 ==> r == parts[|parts| + start..]
    ensures start < -|parts| ==> r == parts
    ensures start > |parts| ==> r == []
  {
    if start < 0 then
      (if |parts| + start < 0 then parts else parts[|parts| + start..])
    else if start > |parts| then []
    else parts[start..]
  }

  /** `s.lastIndexOf(c)`: the last index holding `c`, or -1. */
  function LastIndexOf(s: string, c: char): (r: int)
    ensures -1 <= r < |s|
    ensures r >= 0 ==> s[r] == c && c !in s[r + 1..]
    ensures r == -1 <==> c !in s
  {
    if s == [] then -1
    else if s[|s| - 1] == c then |s| - 1
    else
      var r := LastIndexOf(s[..|s| - 1], c);
      assert s == s[..|s| - 1] + [s[|s| - 1]];
      if r >= 0 then
        assert s[r + 1..] == s[..|s| - 1][r + 1..] + [s[|s| - 1]];
        r
      else r
  }

  /** The last `c` of `s + [c] + tail` is the one added, when `tail` holds none. */
  lemma LastIndexOfBeforeTail(s: string, c: char, tail: string)
    requires c !in tail
    ensures LastIndexOf(s + [c] + tail, c) == |s|
  {
    assert (s + [c] + tail)[|s|] == c;
  }

  /** Clamps an index to `[0, len]`, as `substring` does with its arguments. */
  function Clamp(i: int, len: nat): (r: nat)
    ensures r <= len
    ensures 0 <= i <= len ==> r == i
    ensures i < 0 ==> r == 0
    ensures i > len ==> r == len
  {
    if i < 0 then 0 else if i > len then len else i
  }

  /** The last `c` of `a + sep + b`, where `sep` is `c` alone and `b` holds none, is the one after `a`. */
  lemma LastIndexOfSplit(a: string, sep: string, c: char, b: string)
    requires sep == [c] && c !in b
    ensures LastIndexOf(a + sep + b, c) == |a|
  {
    var s := a + sep + b;
    assert s[|a|] == c && s[|a| + 1..] == b;
    LastIndexOfAt(s, c, |a|);
  }

  /** The last occurrence is found at the one position with none after it. */
  lemma LastIndexOfAt(s: string, c: char, k: nat)
    requires k < |s| && s[k] == c && c !in s[k + 1..]
    ensures LastIndexOf(s, c) == k
  {
  }

  /**
   * `s.substring(start, end)`: both indices are clamped to `[0, |s|]` and
   * swapped when `start > end`; so `s.substring(0, -1)` is `""`.
   */
  function Substring(s: string, start: int, end: int): (r: string)
    ensures 0 <= start <= end <= |s| ==> r == s[start..end]
    ensures start <= 0 && end <= 0 ==> r == ""
  {
    var a := Clamp(start, |s|);
    var b := Clamp(end, |s|);
    if a <= b then s[a..b] else s[b..a]
  }

  // ---------------------------------------------------------------------------
  // trim
  // ---------------------------------------------------------------------------

  /** The characters `String.prototype.trim` removes: WhiteSpace and LineTerminator. */
  predicate IsWhitespace(c: char)
  {
    var n := c as int;
    n == 0x09 || n == 0x0A || n == 0x0B || n == 0x0C || n == 0x0D || n == 0x20
    || n == 0xA0 || n == 0x1680 || (0x2000 <= n <= 0x200A) || n == 0x2028
    || n == 0x2029 || n == 0x202F || n == 0x205F || n == 0x3000 || n == 0xFEFF
  }

  /** `s.trimStart()`: a suffix of `s` that starts with a non-blank, all of whose cut is blank. */
  function TrimStart(s: string): (r: string)
    ensures |r| <= |s| && r == s[|s| - |r|..]
    ensures forall i :: 0 <= i < |s| - |r| ==> IsWhitespace(s[i])
    ensures r == [] || !IsWhitespace(r[0])
  {
    if s != [] && IsWhitespace(s[0]) then TrimStart(s[1..]) else s
  }

  /** `s.trimEnd()`: a prefix of `s` that ends with a non-blank, all of whose cut is blank. */
  function TrimEnd(s: string): (r: string)
    ensures |r| <= |s| && r == s[..|r|]
    ensures forall i :: |r| <= i < |s| ==> IsWhitespace(s[i])
    ensures r == [] || !IsWhitespace(r[|r| - 1])
  {
    if s != [] && IsWhitespace(s[|s| - 1]) then TrimEnd(s[..|s| - 1]) else s
  }

  /** `s.trim()`. */
  function Trim(s: string): string
  {
    TrimEnd(TrimStart(s))
  }

  predicate IsTrimmed(s: string)
  {
    s == [] || (!IsWhitespace(s[0]) && !IsWhitespace(s[|s| - 1]))
  }

  /** The result of `trim` has no blank at either end, and trimming it again changes nothing. */
  lemma TrimIsTrimmed(s: string)
    ensures IsTrimmed(Trim(s))
    ensures Trim(Trim(s)) == Trim(s)
  {
    var t := TrimStart(s);
    var r := TrimEnd(t);
    if r != [] {
      assert r[0] == t[0];
    }
  }

  // ---------------------------------------------------------------------------
  // case folding and substring search
  // ---------------------------------------------------------------------------

  function LowerChar(c: char): char
  {
    if 'A' <= c <= 'Z' then (c as int + 32) as char else c
  }

  /** `s.toLowerCase()`, restricted to the ASCII letters. */
  function Lower(s: string): (r: string)
    ensures |r| == |s|
    ensures forall i :: 0 <= i < |s| ==> r[i] == LowerChar(s[i])
  {
    seq(|s|, i requires 0 <= i < |s| => LowerChar(s[i]))
  }

  predicate IsLower(s: string)
  {
    forall i :: 0 <= i < |s| ==> !('A' <= s[i] <= 'Z')
  }

  /** Lowercasing a string without capitals changes nothing. */
  lemma LowerFixesLower(s: string)
    ensures IsLower(s) ==> Lower(s) == s
  {
  }

  /** Trimming a string without blanks at either end changes nothing. */
  lemma TrimFixesTrimmed(s: string)
    ensures IsTrimmed(s) ==> Trim(s) == s
  {
  }

  lemma LowerIsLower(s: string)
    ensures IsLower(Lower(s))
    ensures Lower(Lower(s)) == Lower(s)
  {
  }

  /** `needle` occurs in `hay` as a contiguous run. */
  predicate IsInfix(needle: string, hay: string)
  {
    needle <= hay || (hay != [] && IsInfix(needle, hay[1..]))
  }

  /** `needle` occurs in `hay` starting at index `i`. */
  predicate OccursAt(needle: string, hay: string, i: int)
  {
    0 <= i <= |hay| - |needle| && hay[i..i + |needle|] == needle
  }

  /** The occurrence as an index: `IsInfix` holds exactly when `needle` occurs at some index of `hay`. */
  lemma IsInfixAt(needle: string, hay: string)
    ensures IsInfix(needle, hay) <==> exists i :: OccursAt(needle, hay, i)
  {
    if IsInfix(needle, hay) {
      InfixHasIndex(needle, hay);
    }
    if exists i :: OccursAt(needle, hay, i) {
      var i :| OccursAt(needle, hay, i);
      IndexIsInfix(needle, hay, i);
    }
  }

  lemma {:induction false} InfixHasIndex(needle: string, hay: string)
    requires IsInfix(needle, hay)
    ensures exists i :: OccursAt(needle, hay, i)
  {
    if needle <= hay {
      assert OccursAt(needle, hay, 0);
    } else {
      InfixHasIndex(needle, hay[1..]);
      var i :| OccursAt(needle, hay[1..], i);
      assert hay[1..][i..i + |needle|] == hay[i + 1..i + 1 + |needle|];
      assert OccursAt(needle, hay, i + 1);
    }
  }

  lemma {:induction false} IndexIsInfix(needle: string, hay: string, i: int)
    requires OccursAt(needle, hay, i)
    ensures IsInfix(needle, hay)
    decreases i
  {
    if i == 0 {
      assert needle <= hay;
    } else {
      assert hay[1..][i - 1..i - 1 + |needle|] == hay[i..i + |needle|];
      IndexIsInfix(needle, hay[1..], i - 1);
    }
  }

  /** A case-insensitive literal substring test, the meaning given to `new RegExp(x, "i").test(s)`. */
  predicate ContainsIgnoringCase(hay: string, needle: string)
  {
    IsInfix(Lower(needle), Lower(hay))
  }
}
