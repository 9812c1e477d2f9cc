/** The tree half of the request sanitiser: how a parsed request body is walked
    (sanitize.interceptor.ts). `html` stands for sanitizeHtml, which is not modelled. */
module SanitizerTree {
  import opened Sanitizer

  /** A parsed JSON value; `Atom` is a number, a boolean or null. A record lists its
      entries in the order `Object.entries` gives them. */
  datatype Value =
    | Text(text: string)
    | Atom(code: int)
    | List(items: seq<Value>)
    | Record(fields: seq<Field>)

  datatype Field = Field(key: string, value: Value)

  const ALLOW_HTML: set<string> := {"htmlContent", "richText", "description"}
  const SKIP: set<string> := {"password", "passwordHash", "token", "refreshToken", "accessToken", "secret", "apiKey"}

  function Decimal(n: nat): (s: string)
    ensures s != [] && forall c :: c in s ==> '0' <= c <= '9'
  {
    var last := [(n % 10 + '0' as int) as char];
    if n < 10 then last else Decimal(n / 10) + last
  }

  /** The number a string of digits stands for. */
  function Read(s: string): int {
    if s == [] then 0 else 10 * Read(s[..|s| - 1]) + s[|s| - 1] as int - '0' as int
  }

  /** Index keys read as their index and have no leading zero. */
  lemma {:induction false} IndexKeysRead(n: nat)
    ensures Read(Decimal(n)) == n && (n > 0 ==> Decimal(n)[0] != '0')
  {
    var last := [(n % 10 + '0' as int) as char];
    if n >= 10 {
      var front := Decimal(n / 10);
      IndexKeysRead(n / 10);
      assert (front + last)[..|front|] == front;
    } else {
      assert last[..0] == [];
    }
  }

  lemma IndexKeysAreOrdinary(i: nat)
    ensures Decimal(i) !in SKIP && Decimal(i) !in ALLOW_HTML
  {
    assert Decimal(i)[0] in Decimal(i);
  }

  // ---------------------------------------------------------------- specification

  function Sanitized(key: string, v: Value, html: string -> string): Value
    decreases v, 1
  {
    if key in SKIP then v
    else match v
      case Text(t) => Text(if key in ALLOW_HTML then html(t) else SanitizeString(t))
      case List(items) => List(SanitizedItems(items, html))
      case Record(fields) => Record(SanitizedFields(fields, html))
      case Atom(_) => v
  }

  function SanitizedFields(fields: seq<Field>, html: string -> string): (r: seq<Field>)
    ensures |r| == |fields|
    decreases fields, 0
  {
    if fields == [] then []
    else
      var f := fields[|fields| - 1];
      SanitizedFields(fields[..|fields| - 1], html) + [Field(f.key, Sanitized(f.key, f.value, html))]
  }

  function SanitizedItems(items: seq<Value>, html: string -> string): (r: seq<Value>)
    ensures |r| == |items|
    decreases items, 0
  {
    if items == [] then []
    else
      SanitizedItems(items[..|items| - 1], html) + [SanitizedItem(items[|items| - 1], html)]
  }

  /** An element of an array: an array inside an array goes through the object branch,
      so it comes out as a record keyed by the indices. */
  function SanitizedItem(item: Value, html: string -> string): Value
    decreases item, 1
  {
    match item
    case Text(t) => Text(SanitizeString(t))
    case List(inner) => Record(SanitizedIndexed(inner, html))
    case Record(fields) => Record(SanitizedFields(fields, html))
    case Atom(_) => item
  }

  function SanitizedIndexed(items: seq<Value>, html: string -> string): (r: seq<Field>)
    ensures |r| == |items|
    decreases items, 0
  {
    if items == [] then []
    else
      var k := Decimal(|items| - 1);
      SanitizedIndexed(items[..|items| - 1], html) + [Field(k, Sanitized(k, items[|items| - 1], html))]
  }

  // ---------------------------------------------------------------- the walk itself

  /** `sanitizeObject` on a plain object. */
  method SanitizeObject(fields: seq<Field>, html: string -> string) returns (sanitized: seq<Field>)
    ensures sanitized == SanitizedFields(fields, html)
    decreases fields, 2
  {
    sanitized := [];
    for i := 0 to |fields|
      invariant sanitized == SanitizedFields(fields[..i], html)
    {
      assert fields[..i + 1][..i] == fields[..i];
      var key, value := fields[i].key, fields[i].value;
      if key in SKIP {
        sanitized := sanitized + [Field(key, value)];
        continue;
      }
      match value {
        case Text(t) =>
          sanitized := sanitized + [Field(key, Text(if key in ALLOW_HTML then html(t) else SanitizeString(t)))];
        case List(items) =>
          var mapped := SanitizeArray(items, html);
          sanitized := sanitized + [Field(key, List(mapped))];
        case Record(inner) =>
          var nested := SanitizeObject(inner, html);
          sanitized := sanitized + [Field(key, Record(nested))];
        case Atom(_) =>
          sanitized := sanitized + [Field(key, value)];
      }
    }
    assert fields[..|fields|] == fields;
  }

  /** `sanitizeObject` on an array, whose entries are keyed by their indices. */
  method SanitizeArrayAsObject(items: seq<Value>, html: string -> string) returns (sanitized: seq<Field>)
    ensures sanitized == SanitizedIndexed(items, html)
    decreases items, 2
  {
    sanitized := [];
    for i := 0 to |items|
      invariant sanitized == SanitizedIndexed(items[..i], html)
    {
      assert items[..i + 1][..i] == items[..i];
      var key, value := Decimal(i), items[i];
      IndexKeysAreOrdinary(i);
      match value {
        case Text(t) =>
          sanitized := sanitized + [Field(key, Text(SanitizeString(t)))];
        case List(inner) =>
          var mapped := SanitizeArray(inner, html);
          sanitized := sanitized + [Field(key, List(mapped))];
        case Record(inner) =>
          var nested := SanitizeObject(inner, html);
          sanitized := sanitized + [Field(key, Record(nested))];
        case Atom(_) =>
          sanitized := sanitized + [Field(key, value)];
      }
    }
    assert items[..|items|] == items;
  }

  /** The callback of `value.map(...)`, run over the whole array. */
  method SanitizeArray(items: seq<Value>, html: string -> string) returns (mapped: seq<Value>)
    ensures mapped == SanitizedItems(items, html)
    decreases items, 1
  {
    mapped := [];
    for i := 0 to |items|
      invariant mapped == SanitizedItems(items[..i], html)
    {
      assert items[..i + 1][..i] == items[..i];
      match items[i] {
        case Text(t) =>
          mapped := mapped + [Text(SanitizeString(t))];
        case List(inner) =>
          var nested := SanitizeArrayAsObject(inner, html);
          mapped := mapped + [Record(nested)];
        case Record(inner) =>
          var nested := SanitizeObject(inner, html);
          mapped := mapped + [Record(nested)];
        case Atom(_) =>
          mapped := mapped + [items[i]];
      }
    }
    assert items[..|items|] == items;
  }

  /** A query or parameter object, whose values are overwritten where it stands. */
  class Params {
    var fields: map<string, Value>

    constructor (fields: map<string, Value>)
      ensures this.fields == fields
    {
      this.fields := fields;
    }

    /** `sanitizeInPlace`: only values that are strings themselves are touched. */
    method SanitizeInPlace()
      modifies this
      ensures fields.Keys == old(fields).Keys
      ensures forall k :: k in old(fields) && old(fields)[k].Text? ==>
        fields[k] == Text(SanitizeString(old(fields)[k].text))
      ensures forall k :: k in old(fields) && !old(fields)[k].Text? ==> fields[k] == old(fields)[k]
    {
      var keys := fields.Keys;
      while keys != {}
        invariant fields.Keys == old(fields).Keys && keys <= fields.Keys
        invariant forall k :: k in keys ==> fields[k] == old(fields)[k]
        invariant forall k :: k in fields && k !in keys ==>
          fields[k] == if old(fields)[k].Text? then Text(SanitizeString(old(fields)[k].text)) else old(fields)[k]
        decreases keys
      {
        var key :| key in keys;
        var value := fields[key];
        if value.Text? {
          fields := fields[key := Text(SanitizeString(value.text))];
        }
        keys := keys - {key};
      }
    }
  }

  // ---------------------------------------------------------------- what comes out

  ghost predicate CleanText(t: string, w: Value) {
    w == Text(SanitizeString(t)) && Safe(w.text) && '\0' !in w.text && Trimmed(w.text)
  }

  /** How `w` answers to a value `v` under `key`: a skipped field is as it was, a text under
      an HTML field is `html` of its text, and every other text is the sanitised one. */
  ghost predicate Clean(key: string, v: Value, w: Value, html: string -> string)
    decreases v, 1
  {
    if key in SKIP then w == v
    else match v
      case Text(t) => if key in ALLOW_HTML then w == Text(html(t)) else CleanText(t, w)
      case Atom(_) => w == v
      case Record(fields) => w.Record? && CleanFields(fields, w.fields, html)
      case List(items) =>
        w.List? && |w.items| == |items| && forall i :: 0 <= i < |items| ==> CleanItem(items[i], w.items[i], html)
  }

  ghost predicate CleanFields(fields: seq<Field>, out: seq<Field>, html: string -> string)
    decreases fields, 0
  {
    |out| == |fields| && forall i :: 0 <= i < |fields| ==>
      out[i].key == fields[i].key && Clean(fields[i].key, fields[i].value, out[i].value, html)
  }

  /** An element of an array has no key of its own, so none of its texts is exempt; an array
      among the elements has become a record keyed by the indices. */
  ghost predicate CleanItem(v: Value, w: Value, html: string -> string)
    decreases v, 1
  {
    match v
    case Text(t) => CleanText(t, w)
    case Atom(_) => w == v
    case Record(fields) => w.Record? && CleanFields(fields, w.fields, html)
    case List(inner) =>
      w.Record? && |w.fields| == |inner| && forall i :: 0 <= i < |inner| ==>
        w.fields[i].key == Decimal(i) && Clean(Decimal(i), inner[i], w.fields[i].value, html)
  }

  lemma {:induction false} SanitizedIsClean(key: string, v: Value, html: string -> string)
    ensures Clean(key, v, Sanitized(key, v, html), html)
    decreases v, 1
  {
    match v
    case Text(t) => SanitizeStringOutput(t);
    case List(items) =>
      forall i | 0 <= i < |items| ensures CleanItem(items[i], SanitizedItems(items, html)[i], html) {
        SanitizedItemsAt(items, html, i);
        SanitizedItemIsClean(items[i], html);
      }
    case Record(fields) => SanitizedFieldsAreClean(fields, html);
    case Atom(_) =>
  }

  lemma {:induction false} SanitizedFieldsAreClean(fields: seq<Field>, html: string -> string)
    ensures CleanFields(fields, SanitizedFields(fields, html), html)
    decreases fields, 0
  {
    forall i | 0 <= i < |fields|
      ensures SanitizedFields(fields, html)[i].key == fields[i].key
      ensures Clean(fields[i].key, fields[i].value, SanitizedFields(fields, html)[i].value, html)
    {
      SanitizedFieldsAt(fields, html, i);
      SanitizedIsClean(fields[i].key, fields[i].value, html);
    }
  }

  lemma {:induction false} SanitizedItemIsClean(item: Value, html: string -> string)
    ensures CleanItem(item, SanitizedItem(item, html), html)
    decreases item, 1
  {
    match item
    case Text(t) => SanitizeStringOutput(t);
    case List(inner) =>
      forall i | 0 <= i < |inner|
        ensures SanitizedIndexed(inner, html)[i].key == Decimal(i)
        ensures Clean(Decimal(i), inner[i], SanitizedIndexed(inner, html)[i].value, html)
      {
        SanitizedIndexedAt(inner, html, i);
        SanitizedIsClean(Decimal(i), inner[i], html);
      }
    case Record(inner) => SanitizedFieldsAreClean(inner, html);
    case Atom(_) =>
  }

  lemma {:induction false} SanitizedIndexedAt(items: seq<Value>, html: string -> string, i: nat)
    requires i < |items|
    ensures SanitizedIndexed(items, html)[i] == Field(Decimal(i), Sanitized(Decimal(i), items[i], html))
  {
    if i < |items| - 1 {
      SanitizedIndexedAt(items[..|items| - 1], html, i);
    }
  }

  // ---------------------------------------------------------------- shape

  /** Same tree: only the texts may differ. */
  ghost predicate SameShape(v: Value, w: Value)
    decreases v
  {
    match v
    case Text(_) => w.Text?
    case Atom(_) => w == v
    case List(items) => w.List? && |w.items| == |items| && forall i :: 0 <= i < |items| ==> SameShape(items[i], w.items[i])
    case Record(fields) =>
      && w.Record? && |w.fields| == |fields|
      && forall i :: 0 <= i < |fields| ==> w.fields[i].key == fields[i].key && SameShape(fields[i].value, w.fields[i].value)
  }

  /** No array is an element of an array, outside the fields that are skipped. */
  ghost predicate NoNestedArray(key: string, v: Value)
    decreases v
  {
    key in SKIP ||
    match v
    case Text(_) => true
    case Atom(_) => true
    case List(items) => forall i :: 0 <= i < |items| ==> !items[i].List? && NoNestedArray("", items[i])
    case Record(fields) => forall i :: 0 <= i < |fields| ==> NoNestedArray(fields[i].key, fields[i].value)
  }

  lemma {:induction false} SameShapeRefl(v: Value)
    ensures SameShape(v, v)
  {
    match v
    case Text(_) =>
    case Atom(_) =>
    case List(items) => forall i | 0 <= i < |items| { SameShapeRefl(items[i]); }
    case Record(fields) => forall i | 0 <= i < |fields| { SameShapeRefl(fields[i].value); }
  }

  lemma {:induction false} SanitizedFieldsAt(fields: seq<Field>, html: string -> string, i: nat)
    requires i < |fields|
    ensures SanitizedFields(fields, html)[i] == Field(fields[i].key, Sanitized(fields[i].key, fields[i].value, html))
  {
    if i < |fields| - 1 {
      SanitizedFieldsAt(fields[..|fields| - 1], html, i);
    }
  }

  lemma {:induction false} SanitizedItemsAt(items: seq<Value>, html: string -> string, i: nat)
    requires i < |items|
    ensures SanitizedItems(items, html)[i] == SanitizedItem(items[i], html)
  {
    if i < |items| - 1 {
      SanitizedItemsAt(items[..|items| - 1], html, i);
    }
  }

  /** The body keeps its shape exactly when no array stands directly inside another. */
  lemma {:induction false} ShapeKept(key: string, v: Value, html: string -> string)
    ensures SameShape(v, Sanitized(key, v, html)) <==> NoNestedArray(key, v)
    decreases v, 1
  {
    if key in SKIP {
      SameShapeRefl(v);
    } else {
      match v
      case Text(_) =>
      case Atom(_) =>
      case List(items) =>
        forall i | 0 <= i < |items|
          ensures SameShape(items[i], SanitizedItems(items, html)[i]) <==> !items[i].List? && NoNestedArray("", items[i])
        {
          SanitizedItemsAt(items, html, i);
          ItemShapeKept(items[i], html);
        }
      case Record(fields) =>
        FieldShapesKept(fields, html);
    }
  }

  lemma {:induction false} ItemShapeKept(item: Value, html: string -> string)
    ensures SameShape(item, SanitizedItem(item, html)) <==> !item.List? && NoNestedArray("", item)
    decreases item, 0
  {
    if item.Record? {
      FieldShapesKept(item.fields, html);
    }
  }

  lemma {:induction false} FieldShapesKept(fields: seq<Field>, html: string -> string)
    ensures SameShape(Record(fields), Record(SanitizedFields(fields, html)))
      <==> forall i :: 0 <= i < |fields| ==> NoNestedArray(fields[i].key, fields[i].value)
    decreases fields, 0
  {
    var out := SanitizedFields(fields, html);
    forall i | 0 <= i < |fields|
      ensures out[i].key == fields[i].key
      ensures SameShape(fields[i].value, out[i].value) <==> NoNestedArray(fields[i].key, fields[i].value)
    {
      SanitizedFieldsAt(fields, html, i);
      ShapeKept(fields[i].key, fields[i].value, html);
    }
  }

  /** A body that does not: the inner array comes out as a record. */
  lemma NestedArrayBecomesRecord(key: string, inner: seq<Value>, html: string -> string)
    requires key !in SKIP
    ensures Sanitized(key, List([List(inner)]), html) == List([Record(SanitizedIndexed(inner, html))])
    ensures !SameShape(List([List(inner)]), Sanitized(key, List([List(inner)]), html))
  {
    SanitizedItemsAt([List(inner)], html, 0);
  }
}
