/**
 * The home page's search form: on submit it drops the fields left empty,
 * serialises the rest as a query string (`URLSearchParams`, that is
 * `application/x-www-form-urlencoded` over UTF-8) and navigates to the
 * listings page with it.
 */
module SearchFilter {
  import Text

  /** One form field and the text it holds. */
  datatype Param = Param(key: string, value: string)

  /** The names of the fields. */
  function Keys(ps: seq<Param>): set<string>
  {
    set p | p in ps :: p.key
  }

  /**
   * `Object.entries(data).filter(([_, v]) => v !== '')`: the fields whose
   * value is not the empty string, in their order.
   */
  function KeepNonEmpty(ps: seq<Param>): (r: seq<Param>)
    ensures |r| <= |ps|
    ensures forall p :: p in r <==> p in ps && p.value != ""
  {
    if ps == [] then []
    else (if ps[0].value == "" then [] else [ps[0]]) + KeepNonEmpty(ps[1..])
  }

  /** Filtering `a + b` filters each part and keeps them in that order. */
  lemma {:induction false} KeepNonEmptyAppend(a: seq<Param>, b: seq<Param>)
    ensures KeepNonEmpty(a + b) == KeepNonEmpty(a) + KeepNonEmpty(b)
  {
    if a == [] {
      assert a + b == b;
    } else {
      assert (a + b)[1..] == a[1..] + b;
      KeepNonEmptyAppend(a[1..], b);
    }
  }

  /** A field list without empty values passes unchanged: the kept entries keep their values and order. */
  lemma {:induction false} KeepNonEmptyKeepsAll(ps: seq<Param>)
    requires forall i :: 0 <= i < |ps| ==> ps[i].value != ""
    ensures KeepNonEmpty(ps) == ps
  {
    if ps != [] {
      KeepNonEmptyKeepsAll(ps[1..]);
    }
  }

  /** Filtering twice is filtering once, and no new field name appears. */
  lemma KeepNonEmptyIdempotent(ps: seq<Param>)
    ensures KeepNonEmpty(KeepNonEmpty(ps)) == KeepNonEmpty(ps)
    ensures Keys(KeepNonEmpty(ps)) <= Keys(ps)
  {
    var r := KeepNonEmpty(ps);
    forall i | 0 <= i < |r|
      ensures r[i].value != ""
    {
      assert r[i] in r;
    }
    KeepNonEmptyKeepsAll(r);
  }

  // ---------------------------------------------------------------------------
  // application/x-www-form-urlencoded serialisation
  // ---------------------------------------------------------------------------

  /** A byte value. */
  predicate IsByte(b: int)
  {
    0 <= b < 256
  }

  /** The UTF-8 encoding of one Unicode scalar value. */
  function Utf8(c: char): (r: seq<int>)
    ensures 1 <= |r| <= 4
    ensures forall i :: 0 <= i < |r| ==> IsByte(r[i])
    ensures c as int < 0x80 ==> r == [c as int]
    ensures c as int >= 0x80 ==> forall i :: 0 <= i < |r| ==> r[i] >= 0x80
  {
    var n := c as int;
    if n < 0x80 then [n]
    else if n < 0x800 then [0xC0 + n / 0x40, 0x80 + n % 0x40]
    else if n < 0x1_0000 then [0xE0 + n / 0x1000, 0x80 + (n / 0x40) % 0x40, 0x80 + n % 0x40]
    else [0xF0 + n / 0x4_0000, 0x80 + (n / 0x1000) % 0x40, 0x80 + (n / 0x40) % 0x40, 0x80 + n % 0x40]
  }

  /** The UTF-8 encoding of a string. */
  function Utf8Of(s: string): (r: seq<int>)
    ensures forall i :: 0 <= i < |r| ==> IsByte(r[i])
  {
    if s == [] then [] else Utf8(s[0]) + Utf8Of(s[1..])
  }

  /** The bytes the serialiser writes as themselves: ASCII letters, digits and `*-._`. */
  predicate IsUnreserved(b: int)
  {
    || ('a' as int <= b <= 'z' as int)
    || ('A' as int <= b <= 'Z' as int)
    || ('0' as int <= b <= '9' as int)
    || b == '*' as int || b == '-' as int || b == '.' as int || b == '_' as int
  }

  const HexDigits: string := "0123456789ABCDEF"

  /** One byte as the serialiser writes it: itself, `+` for a space, else `%` and two upper-case hex digits. */
  function EncodeByte(b: int): (r: string)
    requires IsByte(b)
    ensures 1 <= |r| <= 3
  {
    if IsUnreserved(b) then [b as char]
    else if b == 0x20 then "+"
    else "%" + [HexDigits[b / 16], HexDigits[b % 16]]
  }

  function EncodeBytes(bs: seq<int>): string
    requires forall i :: 0 <= i < |bs| ==> IsByte(bs[i])
  {
    if bs == [] then "" else EncodeByte(bs[0]) + EncodeBytes(bs[1..])
  }

  /** The form-urlencoded byte serialiser applied to a string's UTF-8 encoding. */
  function FormEncode(s: string): (r: string)
    ensures forall i :: 0 <= i < |r| ==> IsFormChar(r[i])
  {
    EncodeBytesChars(Utf8Of(s));
    EncodeBytes(Utf8Of(s))
  }

  /**
   * `new URLSearchParams(entries).toString()`: `name=value` pairs joined by `&`.
   * Splitting the query at `&` gives back one pair per field, in order,
   * whenever there is at least one field.
   */
  function Serialize(ps: seq<Param>): (r: string)
    ensures ps == [] ==> r == ""
    ensures |ps| >= 1 ==> Text.Split(r, '&') == Pairs(ps)
  {
    if |ps| >= 1 then
      PairsSplit(ps);
      Text.Join(Pairs(ps), "&")
    else
      Text.Join(Pairs(ps), "&")
  }

  function Pairs(ps: seq<Param>): (r: seq<string>)
    ensures |r| == |ps|
    ensures forall i :: 0 <= i < |ps| ==> r[i] == FormEncode(ps[i].key) + "=" + FormEncode(ps[i].value)
  {
    seq(|ps|, i requires 0 <= i < |ps| => FormEncode(ps[i].key) + "=" + FormEncode(ps[i].value))
  }

  /** `onSubmit(data)`: the path the search navigates to. */
  function SearchPath(data: seq<Param>): (r: string)
    ensures |r| >= 5 && r[..5] == "/buy?"
    ensures KeepNonEmpty(data) == [] ==> r == "/buy?"
    ensures KeepNonEmpty(data) != [] ==> Text.Split(r[5..], '&') == Pairs(KeepNonEmpty(data))
  {
    var query := Serialize(KeepNonEmpty(data));
    assert ("/buy?" + query)[5..] == query;
    "/buy?" + query
  }

  /** A form with every field empty searches everything. */
  lemma EmptySearch(data: seq<Param>)
    requires forall i :: 0 <= i < |data| ==> data[i].value == ""
    ensures SearchPath(data) == "/buy?"
  {
  }

  // ---------------------------------------------------------------------------
  // reading the query back
  // ---------------------------------------------------------------------------

  /** A character the serialiser can write. */
  predicate IsFormChar(c: char)
  {
    IsUnreserved(c as int) || c == '+' || c == '%' || ('A' <= c <= 'F')
  }

  lemma {:induction false} EncodeBytesChars(bs: seq<int>)
    requires forall i :: 0 <= i < |bs| ==> IsByte(bs[i])
    ensures forall i :: 0 <= i < |EncodeBytes(bs)| ==> IsFormChar(EncodeBytes(bs)[i])
  {
    if bs != [] {
      EncodeBytesChars(bs[1..]);
      var e := EncodeByte(bs[0]);
      assert forall i :: 0 <= i < |e| ==> IsFormChar(e[i]);
      var rest := EncodeBytes(bs[1..]);
      assert EncodeBytes(bs) == e + rest;
      forall i | 0 <= i < |e + rest|
        ensures IsFormChar((e + rest)[i])
      {
        if i >= |e| {
          assert (e + rest)[i] == rest[i - |e|];
        }
      }
    }
  }

  /** An encoded name or value holds no `&`, `=` or space, so the pairs can be split apart again. */
  lemma FormEncodeHasNoDelimiters(s: string)
    ensures '&' !in FormEncode(s) && '=' !in FormEncode(s) && ' ' !in FormEncode(s)
  {
    var r := FormEncode(s);
    assert forall i :: 0 <= i < |r| ==> r[i] != '&' && r[i] != '=' && r[i] != ' ';
  }

  /** The pairs hold no `&`, so joining them at `&` and splitting again gives them back. */
  lemma PairsSplit(ps: seq<Param>)
    requires |ps| >= 1
    ensures Text.Split(Text.Join(Pairs(ps), "&"), '&') == Pairs(ps)
  {
    var pairs := Pairs(ps);
    forall i | 0 <= i < |pairs|
      ensures '&' !in pairs[i]
    {
      FormEncodeHasNoDelimiters(ps[i].key);
      FormEncodeHasNoDelimiters(ps[i].value);
    }
    Text.SplitJoin(pairs, '&');
  }

  predicate IsHexDigit(c: char)
  {
    ('0' <= c <= '9') || ('A' <= c <= 'F') || ('a' <= c <= 'f')
  }

  function HexValue(c: char): (r: int)
    requires IsHexDigit(c)
    ensures 0 <= r < 16
  {
    if '0' <= c <= '9' then c as int - '0' as int
    else if 'A' <= c <= 'F' then c as int - 'A' as int + 10
    else c as int - 'a' as int + 10
  }

  /**
   * The form-urlencoded decoder a server applies to a name or a value: `+` is
   * a space, `%` and two hex digits is that byte, and any other character
   * stands for its own UTF-8 bytes.
   */
  function PercentDecode(s: string): (r: seq<int>)
    decreases |s|
  {
    if s == [] then []
    else if s[0] == '+' then [0x20] + PercentDecode(s[1..])
    else if s[0] == '%' && |s| >= 3 && IsHexDigit(s[1]) && IsHexDigit(s[2]) then
      [HexValue(s[1]) * 16 + HexValue(s[2])] + PercentDecode(s[3..])
    else Utf8(s[0]) + PercentDecode(s[1..])
  }

  lemma HexDigitsValue(d: int)
    requires 0 <= d < 16
    ensures IsHexDigit(HexDigits[d]) && HexValue(HexDigits[d]) == d
  {
  }

  lemma DecodeEncodedByte(b: int, rest: string)
    requires IsByte(b)
    ensures PercentDecode(EncodeByte(b) + rest) == [b] + PercentDecode(rest)
  {
    var e := EncodeByte(b);
    if IsUnreserved(b) {
      assert (e + rest)[1..] == rest;
    } else if b == 0x20 {
      assert (e + rest)[1..] == rest;
    } else {
      HexDigitsValue(b / 16);
      HexDigitsValue(b % 16);
      assert (e + rest)[1] == HexDigits[b / 16] && (e + rest)[2] == HexDigits[b % 16];
      assert (e + rest)[3..] == rest;
    }
  }

  /** Decoding an encoded byte string gives the bytes back. */
  lemma {:induction false} DecodeEncodedBytes(bs: seq<int>)
    requires forall i :: 0 <= i < |bs| ==> IsByte(bs[i])
    ensures PercentDecode(EncodeBytes(bs)) == bs
  {
    if bs != [] {
      DecodeEncodedBytes(bs[1..]);
      DecodeEncodedByte(bs[0], EncodeBytes(bs[1..]));
    }
  }

  /** A continuation byte `10xxxxxx`. */
  predicate IsContinuation(b: int)
  {
    0x80 <= b < 0xC0
  }

  /** A scalar value a `char` can hold. */
  predicate IsScalar(n: int)
  {
    (0 <= n < 0xD800) || (0xE000 <= n < 0x11_0000)
  }

  const Replacement: char := '�'

  /**
   * The UTF-8 decoder: a well-formed sequence of one to four bytes is its
   * scalar value; any other byte is replaced by U+FFFD. It is more lenient
   * than a strict UTF-8 decoder: an overlong form (`C0 80` for U+0000) is
   * decoded to its value rather than refused. Encoded surrogates are refused,
   * since no `char` holds one. The round trip below is promised only for
   * what `Utf8Of` produces, where the two kinds of decoder agree.
   */
  function Utf8Decode(bs: seq<int>): string
    decreases |bs|
  {
    if bs == [] then ""
    else
      var b := bs[0];
      if 0 <= b < 0x80 then [b as char] + Utf8Decode(bs[1..])
      else if 0xC0 <= b < 0xE0 && |bs| >= 2 && IsContinuation(bs[1])
              && IsScalar((b - 0xC0) * 0x40 + (bs[1] - 0x80)) then
        [((b - 0xC0) * 0x40 + (bs[1] - 0x80)) as char] + Utf8Decode(bs[2..])
      else if 0xE0 <= b < 0xF0 && |bs| >= 3 && IsContinuation(bs[1]) && IsContinuation(bs[2])
              && IsScalar((b - 0xE0) * 0x1000 + (bs[1] - 0x80) * 0x40 + (bs[2] - 0x80)) then
        [((b - 0xE0) * 0x1000 + (bs[1] - 0x80) * 0x40 + (bs[2] - 0x80)) as char] + Utf8Decode(bs[3..])
      else if 0xF0 <= b < 0xF8 && |bs| >= 4 && IsContinuation(bs[1]) && IsContinuation(bs[2]) && IsContinuation(bs[3])
              && IsScalar((b - 0xF0) * 0x4_0000 + (bs[1] - 0x80) * 0x1000 + (bs[2] - 0x80) * 0x40 + (bs[3] - 0x80)) then
        [((b - 0xF0) * 0x4_0000 + (bs[1] - 0x80) * 0x1000 + (bs[2] - 0x80) * 0x40 + (bs[3] - 0x80)) as char]
          + Utf8Decode(bs[4..])
      else [Replacement] + Utf8Decode(bs[1..])
  }

  /** Decoding one encoded character, followed by anything, gives the character first. */
  lemma Utf8DecodeChar(c: char, rest: seq<int>)
    ensures Utf8Decode(Utf8(c) + rest) == [c] + Utf8Decode(rest)
  {
    var n := c as int;
    if n < 0x80 {
      assert (Utf8(c) + rest)[1..] == rest;
    } else if n < 0x800 {
      DecodeTwo(c, rest);
    } else if n < 0x1_0000 {
      DecodeThree(c, rest);
    } else {
      DecodeFour(c, rest);
    }
  }

  lemma DecodeTwo(c: char, rest: seq<int>)
    requires 0x80 <= c as int < 0x800
    ensures Utf8Decode(Utf8(c) + rest) == [c] + Utf8Decode(rest)
  {
    var n := c as int;
    var b0, b1 := 0xC0 + n / 0x40, 0x80 + n % 0x40;
    var bs := [b0, b1] + rest;
    assert Utf8(c) == [b0, b1];
    assert (b0 - 0xC0) * 0x40 + (b1 - 0x80) == n;
    assert bs[2..] == rest;
  }

  lemma DecodeThree(c: char, rest: seq<int>)
    requires 0x800 <= c as int < 0x1_0000
    ensures Utf8Decode(Utf8(c) + rest) == [c] + Utf8Decode(rest)
  {
    var n := c as int;
    var b0, b1, b2 := 0xE0 + n / 0x1000, 0x80 + (n / 0x40) % 0x40, 0x80 + n % 0x40;
    var bs := [b0, b1, b2] + rest;
    assert Utf8(c) == [b0, b1, b2];
    assert (b0 - 0xE0) * 0x1000 + (b1 - 0x80) * 0x40 + (b2 - 0x80) == n;
    assert bs[3..] == rest;
  }

  lemma DecodeFour(c: char, rest: seq<int>)
    requires 0x1_0000 <= c as int
    ensures Utf8Decode(Utf8(c) + rest) == [c] + Utf8Decode(rest)
  {
    var n := c as int;
    FourDigits(n);
    var bs := Utf8(c) + rest;
    assert |Utf8(c)| == 4 && bs[4..] == rest;
  }

  /** Four base-64 digits of a code point, as the four-byte form spreads them, put back together. */
  lemma FourDigits(n: int)
    requires 0 <= n
    ensures (n / 0x4_0000) * 0x4_0000 + ((n / 0x1000) % 0x40) * 0x1000 + ((n / 0x40) % 0x40) * 0x40 + n % 0x40 == n
  {
    var q1, q2, q3 := n / 0x40, n / 0x1000, n / 0x4_0000;
    assert n == q1 * 0x40 + n % 0x40;
    assert q2 == q1 / 0x40 && q1 == q2 * 0x40 + q1 % 0x40;
    assert q3 == q2 / 0x40 && q2 == q3 * 0x40 + q2 % 0x40;
  }

  lemma {:induction false} Utf8RoundTrip(s: string)
    ensures Utf8Decode(Utf8Of(s)) == s
  {
    if s != [] {
      Utf8RoundTrip(s[1..]);
      Utf8DecodeChar(s[0], Utf8Of(s[1..]));
    }
  }

  /** What a server reads back from an encoded name or value. */
  function FormDecode(t: string): string
  {
    Utf8Decode(PercentDecode(t))
  }

  /** Every name and value reaches the server as the user typed it. */
  lemma FormRoundTrip(s: string)
    ensures FormDecode(FormEncode(s)) == s
  {
    DecodeEncodedBytes(Utf8Of(s));
    Utf8RoundTrip(s);
  }
}
