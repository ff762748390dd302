/**
 * The client side of creating a listing: `createProperty` walks the form's
 * nested data and appends it, field by field, to a multipart `FormData`
 * buffer (`flattenObject`); when the request fails, `onError` picks the
 * message the form shows.
 */
module AddProperty {
  import opened Wrappers
  import Text

  /** A JavaScript value found in the form data. */
  datatype ClientValue =
    | Str(s: string)
    /** A number or a boolean, carried as the text `String` makes of it. */
    | Scalar(text: string)
    /** A `File` picked in the form. */
    | Blob(name: string)
    /** An array, or the `FileList` of an `images` input. */
    | List(items: seq<ClientValue>)
    /** A plain object, its own keys in `Object.keys` order. */
    | Record(fields: seq<Field>)
    | Undefined
    | Null

  datatype Field = Field(key: string, value: ClientValue)

  /** One `fd.append(name, value)`. */
  datatype Entry = Entry(name: string, value: ClientValue)

  /**
   * What a walk appends before it ends, and whether it ended by throwing
   * (`Array.from` of `undefined` or `null` raises a `TypeError`).
   */
  datatype Flat = Flat(entries: seq<Entry>, threw: bool)

  /** The key a field is appended under: `prefix.key`, or `key` alone when the prefix is empty. */
  function KeyOf(prefix: string, key: string): (r: string)
    ensures prefix == "" ==> r == key
    ensures prefix != "" ==> |r| == |prefix| + 1 + |key| && r[..|prefix| + 1] == prefix + "."
  {
    if prefix != "" then prefix + "." + key else key
  }

  /**
   * `Array.from(value)`: the items of an array, the characters of a string,
   * nothing for a value without a length, and a `TypeError` (None) for
   * `undefined` and `null`.
   */
  function ArrayFrom(v: ClientValue): (r: Option<seq<ClientValue>>)
    ensures r.None? <==> v.Undefined? || v.Null?
    ensures v.List? ==> r == Some(v.items)
    ensures v.Str? ==> r.Some? && |r.value| == |v.s|
  {
    match v
    case Undefined => None
    case Null => None
    case List(items) => Some(items)
    case Str(s) => Some(seq(|s|, i requires 0 <= i < |s| => Str([s[i]])))
    case _ => Some([])
  }

  /** One `images` entry per item, in item order. */
  function ImageEntries(items: seq<ClientValue>): (r: seq<Entry>)
    ensures |r| == |items|
    ensures forall i :: 0 <= i < |r| ==> r[i] == Entry("images", items[i])
  {
    seq(|items|, i requires 0 <= i < |items| => Entry("images", items[i]))
  }

  /** A walk that has not thrown, followed by another walk. */
  function Then(first: Flat, rest: Flat): Flat
  {
    Flat(first.entries + rest.entries, rest.threw)
  }

  /** A value `fd.append` may receive outside `images`: a string, a number or boolean, or an array. */
  predicate Appendable(v: ClientValue)
  {
    v.Str? || v.Scalar? || v.List?
  }

  /**
   * What the walk does with a single field under `prefix`. Outside `images`
   * it appends only strings, scalars and arrays: objects and files are
   * walked into, and `undefined` and `null` are skipped.
   */
  function FlattenField(f: Field, prefix: string): (r: Flat)
    ensures forall e :: e in r.entries ==> e.name == "images" || Appendable(e.value)
    ensures f.key == "images" ==> (r.threw <==> f.value.Undefined? || f.value.Null?)
    decreases f, 1
  {
    if f.key == "images" then
      match ArrayFrom(f.value)
      case None => Flat([], true)
      case Some(items) => Flat(ImageEntries(items), false)
    else
      match f.value
      case Record(fields) => Flatten(fields, KeyOf(prefix, f.key))
      // A File is an object that is not an array: the walk recurses into it and finds no own keys.
      case Blob(_) => Flat([], false)
      case Undefined => Flat([], false)
      case Null => Flat([], false)
      case _ => Flat([Entry(KeyOf(prefix, f.key), f.value)], false)
  }

  /** `flattenObject(obj, prefix)`: the fields in key order, stopping at the first throw. */
  function Flatten(fields: seq<Field>, prefix: string): (r: Flat)
    ensures forall e :: e in r.entries ==> e.name == "images" || Appendable(e.value)
    decreases fields, 0
  {
    if fields == [] then Flat([], false)
    else
      var first := FlattenField(fields[0], prefix);
      if first.threw then first else Then(first, Flatten(fields[1..], prefix))
  }

  /** The walk over `a + b` is the walk over `a` and, unless that threw, the walk over `b` after it. */
  lemma {:induction false} FlattenAppend(a: seq<Field>, b: seq<Field>, prefix: string)
    ensures Flatten(a + b, prefix) ==
      if Flatten(a, prefix).threw then Flatten(a, prefix) else Then(Flatten(a, prefix), Flatten(b, prefix))
  {
    if a == [] {
      assert a + b == b;
    } else {
      assert (a + b)[0] == a[0];
      assert (a + b)[1..] == a[1..] + b;
      FlattenAppend(a[1..], b, prefix);
    }
  }

  /** The form data a request sends: the entries `fd.append` received, in order. */
  class FormData {
    var entries: seq<Entry>

    constructor ()
      ensures entries == []
    {
      entries := [];
    }

    method Append(name: string, value: ClientValue)
      modifies this
      ensures entries == old(entries) + [Entry(name, value)]
    {
      entries := entries + [Entry(name, value)];
    }
  }

  /**
   * `flattenObject(obj, prefix)` appending into `fd`; `threw` says whether
   * the walk ended with a `TypeError`, after whatever it appended before.
   */
  method FlattenInto(fd: FormData, obj: seq<Field>, prefix: string) returns (threw: bool)
    modifies fd
    decreases obj, 0
    ensures fd.entries == old(fd.entries) + Flatten(obj, prefix).entries
    ensures threw == Flatten(obj, prefix).threw
  {
    var i := 0;
    threw := false;
    while i < |obj| && !threw
      invariant 0 <= i <= |obj|
      invariant fd.entries == old(fd.entries) + Flatten(obj[..i], prefix).entries
      invariant threw == Flatten(obj[..i], prefix).threw
    {
      threw := FlattenFieldInto(fd, obj[i], prefix);
      FlattenStep(obj, i, prefix);
      i := i + 1;
    }
    FlattenAppend(obj[..i], obj[i..], prefix);
    assert obj[..i] + obj[i..] == obj;
  }

  /** The body of the `forEach` in `flattenObject`, for one key and its value. */
  method FlattenFieldInto(fd: FormData, f: Field, prefix: string) returns (threw: bool)
    modifies fd
    decreases f, 1
    ensures fd.entries == old(fd.entries) + FlattenField(f, prefix).entries
    ensures threw == FlattenField(f, prefix).threw
  {
    threw := false;
    if f.key == "images" {
      var items := ArrayFrom(f.value);
      if items.None? {
        threw := true;
      } else {
        AppendImages(fd, items.value);
      }
    } else if f.value.Record? {
      threw := FlattenInto(fd, f.value.fields, KeyOf(prefix, f.key));
    } else if !(f.value.Blob? || f.value.Undefined? || f.value.Null?) {
      fd.Append(KeyOf(prefix, f.key), f.value);
    }
  }

  /** `Array.from(value).forEach(file => fd.append('images', file))` once `Array.from` has succeeded. */
  method AppendImages(fd: FormData, items: seq<ClientValue>)
    modifies fd
    ensures fd.entries == old(fd.entries) + ImageEntries(items)
  {
    for j := 0 to |items|
      invariant fd.entries == old(fd.entries) + ImageEntries(items[..j])
    {
      assert ImageEntries(items[..j + 1]) == ImageEntries(items[..j]) + [Entry("images", items[j])];
      fd.Append("images", items[j]);
    }
    assert items[..|items|] == items;
  }

  /** One more field of the walk: the walk over `obj[..i + 1]` from the walk over `obj[..i]`. */
  lemma FlattenStep(obj: seq<Field>, i: nat, prefix: string)
    requires i < |obj|
    ensures Flatten(obj[..i + 1], prefix) ==
      if Flatten(obj[..i], prefix).threw then Flatten(obj[..i], prefix)
      else Then(Flatten(obj[..i], prefix), FlattenField(obj[i], prefix))
  {
    assert Flatten([obj[i]], prefix) == FlattenField(obj[i], prefix);
    FlattenAppend(obj[..i], [obj[i]], prefix);
    assert obj[..i + 1] == obj[..i] + [obj[i]];
  }

  /**
   * The part of `createProperty` before the request: a new buffer filled
   * from the form data; `threw` says the request is never sent.
   */
  method BuildFormData(formData: seq<Field>) returns (fd: FormData, threw: bool)
    ensures fresh(fd)
    ensures fd.entries == Flatten(formData, "").entries
    ensures threw == Flatten(formData, "").threw
  {
    fd := new FormData();
    threw := FlattenInto(fd, formData, "");
  }

  // ---------------------------------------------------------------------------
  // properties of the walk
  // ---------------------------------------------------------------------------

  /** The first `|p| + 1` characters of `s` are `p` followed by a dot. */
  predicate UnderPrefix(p: string, s: string)
  {
    |s| > |p| && s[..|p| + 1] == p + "."
  }

  /**
   * Every entry is an `images` entry or sits under the walk's prefix; at the
   * top level (empty prefix) nothing is prefixed.
   */
  lemma {:induction false} FlattenNamesUnderPrefix(fields: seq<Field>, prefix: string)
    requires prefix != ""
    ensures forall e :: e in Flatten(fields, prefix).entries ==> e.name == "images" || UnderPrefix(prefix, e.name)
    decreases fields, 0
  {
    if fields != [] {
      FieldNamesUnderPrefix(fields[0], prefix);
      FlattenNamesUnderPrefix(fields[1..], prefix);
    }
  }

  lemma {:induction false} FieldNamesUnderPrefix(f: Field, prefix: string)
    requires prefix != ""
    ensures forall e :: e in FlattenField(f, prefix).entries ==> e.name == "images" || UnderPrefix(prefix, e.name)
    decreases f, 1
  {
    if f.key != "images" && f.value.Record? {
      var key := KeyOf(prefix, f.key);
      FlattenNamesUnderPrefix(f.value.fields, key);
      forall e | e in Flatten(f.value.fields, key).entries && e.name != "images"
        ensures UnderPrefix(prefix, e.name)
      {
        assert e.name[..|key| + 1] == key + ".";
        assert e.name[..|prefix| + 1] == key[..|prefix| + 1];
      }
    }
  }

  /** An `images` field appends one `images` entry per file, in file order, whatever the prefix. */
  lemma ImagesInOrder(files: seq<ClientValue>, prefix: string, rest: seq<Field>)
    ensures Flatten([Field("images", List(files))] + rest, prefix).entries ==
      ImageEntries(files) + Flatten(rest, prefix).entries
  {
    assert ([Field("images", List(files))] + rest)[1..] == rest;
  }

  /** A nested object contributes its own walk, under the dotted key. */
  lemma NestedUnderDottedKey(key: string, inner: seq<Field>, prefix: string)
    requires key != "images"
    ensures Flatten([Field(key, Record(inner))], prefix) == Flatten(inner, KeyOf(prefix, key))
  {
    var r := Flatten(inner, KeyOf(prefix, key));
    assert [Field(key, Record(inner))][1..] == [];
    assert r.entries + [] == r.entries;
  }

  /** An array under a key other than `images` is appended whole, as one entry. */
  lemma ArrayAppendedWhole(key: string, items: seq<ClientValue>, prefix: string)
    requires key != "images"
    ensures Flatten([Field(key, List(items))], prefix) == Flat([Entry(KeyOf(prefix, key), List(items))], false)
  {
  }

  /** A field of a flat form: not `images`, and neither an object nor a file. */
  predicate IsPlain(f: Field)
  {
    f.key != "images" && !f.value.Record? && !f.value.Blob?
  }

  /** The fields of a flat form whose values are defined, each as one entry under its own key. */
  function DefinedEntries(fields: seq<Field>, prefix: string): (r: seq<Entry>)
    ensures |r| <= |fields|
  {
    if fields == [] then []
    else
      var f := fields[0];
      (if f.value.Undefined? || f.value.Null? then [] else [Entry(KeyOf(prefix, f.key), f.value)])
      + DefinedEntries(fields[1..], prefix)
  }

  /**
   * For a form without nested objects, files or images, every defined value
   * appears exactly once, under its own key, in field order, and the walk
   * does not throw.
   */
  lemma {:induction false} FlatFormEntries(fields: seq<Field>, prefix: string)
    requires forall i :: 0 <= i < |fields| ==> IsPlain(fields[i])
    ensures Flatten(fields, prefix) == Flat(DefinedEntries(fields, prefix), false)
  {
    if fields != [] {
      FlatFormEntries(fields[1..], prefix);
      var f := fields[0];
      assert IsPlain(f);
      assert FlattenField(f, prefix) ==
        if f.value.Undefined? || f.value.Null? then Flat([], false) else Flat([Entry(KeyOf(prefix, f.key), f.value)], false);
    }
  }

  /** Some `images` field, at any depth, holds `undefined` or `null`. */
  predicate MissingImages(fields: seq<Field>)
    decreases fields
  {
    exists i :: 0 <= i < |fields| &&
      if fields[i].key == "images" then fields[i].value.Undefined? || fields[i].value.Null?
      else fields[i].value.Record? && MissingImages(fields[i].value.fields)
  }

  /** The walk throws exactly when some `images` field is `undefined` or `null`. */
  lemma {:induction false} ThrowsIffMissingImages(fields: seq<Field>, prefix: string)
    ensures Flatten(fields, prefix).threw <==> MissingImages(fields)
    decreases fields
  {
    if fields != [] {
      var f := fields[0];
      if f.key != "images" && f.value.Record? {
        ThrowsIffMissingImages(f.value.fields, KeyOf(prefix, f.key));
      }
      ThrowsIffMissingImages(fields[1..], prefix);
      if MissingImages(fields[1..]) {
        var i :| 0 <= i < |fields[1..]| &&
          if fields[1..][i].key == "images" then fields[1..][i].value.Undefined? || fields[1..][i].value.Null?
          else fields[1..][i].value.Record? && MissingImages(fields[1..][i].value.fields);
        assert fields[i + 1] == fields[1..][i];
      }
      if MissingImages(fields) {
        var i :| 0 <= i < |fields| &&
          if fields[i].key == "images" then fields[i].value.Undefined? || fields[i].value.Null?
          else fields[i].value.Record? && MissingImages(fields[i].value.fields);
        if i > 0 {
          assert fields[1..][i - 1] == fields[i];
        }
      }
    }
  }

  // ---------------------------------------------------------------------------
  // the error message
  // ---------------------------------------------------------------------------

  /**
   * The parts of a failed request's response the handler reads: the `msg`
   * of each item of `data.errors`, and `data.error`.
   */
  datatype ErrorBody = ErrorBody(errors: Option<seq<string>>, error: Option<string>)

  const Fallback: string := "An unexpected error occurred."

  /**
   * `onError(error)`: the server's messages joined with `". "` when that is
   * not empty, else the server's `error` when that is not empty, else the
   * fallback. `response` is None when the request failed without a response
   * (a network error, or the walk threw before sending).
   */
  function ErrorMessage(response: Option<ErrorBody>): (r: string)
    ensures r != ""
    ensures response.None? ==> r == Fallback
    ensures response.Some? && response.value.errors.Some? && Text.Join(response.value.errors.value, ". ") != "" ==>
      r == Text.Join(response.value.errors.value, ". ")
    ensures response.Some? && (response.value.errors.None? || Text.Join(response.value.errors.value, ". ") == "") ==>
      r == if response.value.error.Some? && response.value.error.value != "" then response.value.error.value else Fallback
  {
    var joined := if response.Some? && response.value.errors.Some? then Text.Join(response.value.errors.value, ". ") else "";
    if joined != "" then joined
    else if response.Some? && response.value.error.Some? && response.value.error.value != "" then response.value.error.value
    else Fallback
  }

  /** Joining with a non-empty separator is empty only for no messages or a single empty one. */
  lemma JoinEmptyIff(msgs: seq<string>, sep: string)
    requires sep != ""
    ensures Text.Join(msgs, sep) == "" <==> msgs == [] || msgs == [""]
  {
    if |msgs| >= 2 {
      assert |Text.Join(msgs, sep)| >= |sep|;
    }
  }

  /**
   * An empty `errors` list, or one whose only message is empty, falls
   * through to `error`, then to the fallback; any other list wins over `error`.
   */
  lemma ErrorsFallThrough(errors: seq<string>, error: Option<string>)
    ensures errors == [] || errors == [""] ==>
      ErrorMessage(Some(ErrorBody(Some(errors), error))) ==
        if error.Some? && error.value != "" then error.value else Fallback
    ensures !(errors == [] || errors == [""]) ==>
      ErrorMessage(Some(ErrorBody(Some(errors), error))) == Text.Join(errors, ". ")
  {
    JoinEmptyIff(errors, ". ");
  }

  /** The create route's refusal, `{ error: "Create failed" }` with no `errors`, is shown as its own message. */
  lemma CreateFailedShown()
    ensures ErrorMessage(Some(ErrorBody(None, Some("Create failed")))) == "Create failed"
  {
  }

  /** A walk that throws never sends the request, so the form shows the fallback. */
  lemma ThrownWalkShowsFallback(formData: seq<Field>)
    requires MissingImages(formData)
    ensures Flatten(formData, "").threw && ErrorMessage(None) == Fallback
  {
    ThrowsIffMissingImages(formData, "");
  }
}
