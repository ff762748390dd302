/**
 * Stored records as the document database sees them: a record is a map from
 * field names to JSON-like values. Keeping records untyped lets the model say
 * exactly what a blind `Object.assign` does and which fields a query names.
 */
module Documents {
  import opened Wrappers
  import Text

  /** Record identifiers and user identifiers, compared as strings. */
  type Id = string

  /**
   * A field value. `NaN` is what `Number(x)` gives for a non-numeral; `Null`
   * is what the document layer stores for an empty string cast to a number.
   */
  datatype Value =
    | Str(s: string)
    | Num(n: int)
    | NaN
    | Null
    | Obj(fields: map<string, Value>)
    | Arr(items: seq<Value>)

  type Doc = map<string, Value>

  function Get(d: Doc, k: string): (r: Option<Value>)
    ensures r.Some? <==> k in d
    ensures r.Some? ==> r.value == d[k]
  {
    if k in d then Some(d[k]) else None
  }

  /** Two records that agree on every field are equal. */
  lemma GetExtensional(a: Doc, b: Doc)
    requires forall k :: Get(a, k) == Get(b, k)
    ensures a == b
  {
    forall k
      ensures (k in a <==> k in b) && (k in a ==> a[k] == b[k])
    {
      assert Get(a, k) == Get(b, k);
    }
    assert a.Keys == b.Keys;
  }

  /**
   * The items of a `[String]` array when every one is a string; none when
   * some item is not, as a stored `null` item is, on which `url.split` throws.
   */
  function StringItems(items: seq<Value>): (r: Option<seq<string>>)
    ensures r.Some? <==> forall i :: 0 <= i < |items| ==> items[i].Str?
    ensures r.Some? ==> |r.value| == |items| && forall i :: 0 <= i < |items| ==> r.value[i] == items[i].s
  {
    if items == [] then Some([])
    else if !items[0].Str? then None
    else match StringItems(items[1..])
      case None => None
      case Some(rest) => Some([items[0].s] + rest)
  }

  function Strs(xs: seq<string>): (r: seq<Value>)
    ensures |r| == |xs|
    ensures forall i :: 0 <= i < |xs| ==> r[i] == Str(xs[i])
  {
    seq(|xs|, i requires 0 <= i < |xs| => Str(xs[i]))
  }

  /** The items of the record's `images` array; none when it is missing or not an array. */
  function ImageItems(d: Doc): seq<Value>
  {
    if "images" in d && d["images"].Arr? then d["images"].items else []
  }

  /**
   * The image URLs of a stored record as `p.images.map(url => url.split("/"))`
   * reads them. A missing `images` reads as the schema's empty default. A
   * `null` array, or an array holding a `null` (or any other non-string)
   * item, makes the read throw a `TypeError`, which is `None`.
   */
  function ImageUrls(d: Doc): (r: Option<seq<string>>)
    ensures "images" !in d ==> r == Some([])
    ensures "images" in d && !d["images"].Arr? ==> r.None?
    ensures "images" in d && d["images"].Arr? ==>
              (r.Some? <==> forall i :: 0 <= i < |d["images"].items| ==> d["images"].items[i].Str?)
    ensures r.Some? ==> |r.value| == |ImageItems(d)| && forall i :: 0 <= i < |r.value| ==> ImageItems(d)[i] == Str(r.value[i])
  {
    if "images" !in d then Some([])
    else if d["images"].Arr? then StringItems(d["images"].items)
    else None
  }

  lemma ImageUrlsOfStrings(d: Doc, urls: seq<string>)
    requires Get(d, "images") == Some(Arr(Strs(urls)))
    ensures ImageUrls(d) == Some(urls)
  {
    var r := StringItems(Strs(urls));
    assert r.Some?;
    assert r.value == urls;
  }

  // ---------------------------------------------------------------------------
  // Number(x) for the integer numerals
  // ---------------------------------------------------------------------------

  predicate IsDigit(c: char) { '0' <= c <= '9' }

  predicate IsDigits(s: string)
  {
    |s| > 0 && forall i :: 0 <= i < |s| ==> IsDigit(s[i])
  }

  function DigitsValue(s: string): (n: nat)
    requires forall i :: 0 <= i < |s| ==> IsDigit(s[i])
  {
    if s == [] then 0
    else
      assert IsDigit(s[|s| - 1]);
      10 * DigitsValue(s[..|s| - 1]) + (s[|s| - 1] as int - '0' as int)
  }

  /**
   * `Number(x)`: `undefined` is NaN, a blank string is 0, an optionally signed
   * run of decimal digits (surrounding blanks allowed) is its value, and
   * anything else is NaN.
   */
  function ToNumber(x: Option<string>): (r: Value)
    ensures r.Num? || r.NaN?
    ensures x.None? ==> r.NaN?
    ensures x.Some? && Text.Trim(x.value) == [] ==> r == Num(0)
  {
    match x
    case None => NaN
    case Some(s) =>
      var t := Text.Trim(s);
      if t == [] then Num(0)
      else if IsDigits(t) then Num(DigitsValue(t))
      else if (t[0] == '-' || t[0] == '+') && IsDigits(t[1..]) then
        var v: int := DigitsValue(t[1..]);
        Num(if t[0] == '-' then -v else v)
      else NaN
  }

  /** The decimal numeral of a natural number, without leading zeros. */
  function Decimal(n: nat): (s: string)
    ensures IsDigits(s)
    decreases n
  {
    if n < 10 then [('0' as int + n) as char]
    else Decimal(n / 10) + [('0' as int + n % 10) as char]
  }

  lemma {:induction false} DecimalValue(n: nat)
    ensures DigitsValue(Decimal(n)) == n
    decreases n
  {
    if n >= 10 {
      var s := Decimal(n);
      assert s[..|s| - 1] == Decimal(n / 10);
      DecimalValue(n / 10);
    }
  }

  /** `Number` reads back every integer written in decimal. */
  lemma ToNumberDecimal(n: int)
    ensures ToNumber(Some(if n < 0 then "-" + Decimal(-n) else Decimal(n))) == Num(n)
  {
    if n < 0 {
      var s := "-" + Decimal(-n);
      DecimalValue(-n);
      assert !Text.IsWhitespace(s[0]) && !Text.IsWhitespace(s[|s| - 1]);
      assert Text.Trim(s) == s;
      assert s[1..] == Decimal(-n);
    } else {
      var s := Decimal(n);
      DecimalValue(n);
      assert !Text.IsWhitespace(s[0]) && !Text.IsWhitespace(s[|s| - 1]);
      assert Text.Trim(s) == s;
    }
  }

  /** The decimal text JavaScript writes for an integer (`String(n)`). */
  function NumText(n: int): (s: string)
    ensures ToNumber(Some(s)) == Num(n)
    ensures s != ""
  {
    ToNumberDecimal(n);
    if n < 0 then "-" + Decimal(-n) else Decimal(n)
  }
}
