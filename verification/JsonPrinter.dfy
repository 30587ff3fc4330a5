/**
 Compact JSON text for a value whose keys are already in order: no whitespace, every non-ASCII
 character verbatim.  The text of a value is never a proper prefix of another value's text with
 something that may legally follow, so printing is injective through any nesting.
 */
module JsonPrinter {
  import opened JsonText

  function Print(v: Json): (t: string)
    ensures t != []
    decreases v
  {
    match v
    case JNull => "null"
    case JBool(b) => if b then "true" else "false"
    case JInt(n) => IntText(n)
    case JString(s) => Quote(s)
    case JList(items) => "[" + PrintItems(items)
    case JObject(fields) => "{" + PrintFields(fields)
  }

  function PrintItems(items: seq<Json>): (t: string)
    ensures t != []
    decreases items
  {
    if items == [] then "]" else Print(items[0]) + ItemsAfter(items)
  }

  function ItemsAfter(items: seq<Json>): string
    requires items != []
    decreases items, 0
  {
    if |items| == 1 then "]" else "," + PrintItems(items[1..])
  }

  function PrintFields(fields: seq<Field>): (t: string)
    ensures t != []
    decreases fields
  {
    if fields == [] then "}"
    else Quote(fields[0].key) + ":" + Print(fields[0].value) + FieldsAfter(fields)
  }

  function FieldsAfter(fields: seq<Field>): string
    requires fields != []
    decreases fields, 0
  {
    if |fields| == 1 then "}" else "," + PrintFields(fields[1..])
  }

  /** The first character tells what kind of value follows. */
  function Lead(v: Json): char {
    match v
    case JNull => 'n'
    case JBool(b) => if b then 't' else 'f'
    case JInt(n) => IntText(n)[0]
    case JString(_) => '"'
    case JList(_) => '['
    case JObject(_) => '{'
  }

  lemma PrintLead(v: Json, r: string)
    ensures (Print(v) + r)[0] == Lead(v)
    ensures Lead(v) != ']' && Lead(v) != '}'
  {
    if v.JInt? {
      assert Digits(if v.n < 0 then -v.n else v.n) != [];
    }
  }

  lemma SameLead(a: Json, b: Json)
    requires Lead(a) == Lead(b)
    ensures a.JNull? == b.JNull? && a.JBool? == b.JBool? && a.JInt? == b.JInt?
    ensures a.JString? == b.JString? && a.JList? == b.JList? && a.JObject? == b.JObject?
    ensures a.JBool? ==> a == b
  {
    assert a.JInt? ==> Lead(a) == '-' || IsDigit(Lead(a));
    assert b.JInt? ==> Lead(b) == '-' || IsDigit(Lead(b));
  }

  lemma DropHead(h: string, x: string, rx: string)
    ensures h + x + rx == h + (x + rx)
  {
  }

  /** The text of a value ends where it ends: nesting, commas and brackets cannot be confused. */
  lemma {:induction false} PrintPrefixFree(a: Json, b: Json, ra: string, rb: string)
    requires Print(a) + ra == Print(b) + rb && Ends(ra) && Ends(rb)
    ensures a == b && ra == rb
    decreases a
  {
    PrintLead(a, ra);
    PrintLead(b, rb);
    SameLead(a, b);
    match a {
      case JNull => SamePrefix("null", "null", ra, rb);
      case JBool(_) => SamePrefix(Print(a), Print(b), ra, rb);
      case JInt(n) => IntPrefixFree(n, b.n, ra, rb);
      case JString(s) => QuotePrefixFree(s, b.s, ra, rb);
      case JList(items) =>
        DropHead("[", PrintItems(items), ra);
        DropHead("[", PrintItems(b.items), rb);
        SamePrefix("[", "[", PrintItems(items) + ra, PrintItems(b.items) + rb);
        ItemsPrefixFree(items, b.items, ra, rb);
      case JObject(fields) =>
        DropHead("{", PrintFields(fields), ra);
        DropHead("{", PrintFields(b.fields), rb);
        SamePrefix("{", "{", PrintFields(fields) + ra, PrintFields(b.fields) + rb);
        FieldsPrefixFree(fields, b.fields, ra, rb);
    }
  }

  lemma ItemsAfterEnds(items: seq<Json>, r: string)
    requires items != []
    ensures Ends(ItemsAfter(items) + r)
    ensures (ItemsAfter(items) + r)[0] == ']' <==> |items| == 1
  {
    assert ItemsAfter(items)[0] == if |items| == 1 then ']' else ',';
  }

  lemma ItemsLead(items: seq<Json>, r: string)
    ensures (PrintItems(items) + r)[0] == ']' <==> items == []
    ensures items != [] ==> PrintItems(items) + r == Print(items[0]) + (ItemsAfter(items) + r)
    ensures items != [] ==> Ends(ItemsAfter(items) + r) && ((ItemsAfter(items) + r)[0] == ']' <==> |items| == 1)
  {
    if items != [] {
      DropHead(Print(items[0]), ItemsAfter(items), r);
      PrintLead(items[0], ItemsAfter(items) + r);
      ItemsAfterEnds(items, r);
    }
  }

  lemma {:induction false} ItemsPrefixFree(a: seq<Json>, b: seq<Json>, ra: string, rb: string)
    requires PrintItems(a) + ra == PrintItems(b) + rb && Ends(ra) && Ends(rb)
    ensures a == b && ra == rb
    decreases a
  {
    ItemsLead(a, ra);
    ItemsLead(b, rb);
    if a == [] {
      SamePrefix("]", "]", ra, rb);
    } else {
      var xa, xb := ItemsAfter(a) + ra, ItemsAfter(b) + rb;
      PrintPrefixFree(a[0], b[0], xa, xb);
      if |a| == 1 {
        SamePrefix("]", "]", ra, rb);
        assert a == [a[0]] && b == [b[0]];
      } else {
        DropHead(",", PrintItems(a[1..]), ra);
        DropHead(",", PrintItems(b[1..]), rb);
        SamePrefix(",", ",", PrintItems(a[1..]) + ra, PrintItems(b[1..]) + rb);
        ItemsPrefixFree(a[1..], b[1..], ra, rb);
        assert a == [a[0]] + a[1..] && b == [b[0]] + b[1..];
      }
    }
  }

  lemma FieldsAfterEnds(fields: seq<Field>, r: string)
    requires fields != []
    ensures Ends(FieldsAfter(fields) + r)
    ensures (FieldsAfter(fields) + r)[0] == '}' <==> |fields| == 1
  {
    assert FieldsAfter(fields)[0] == if |fields| == 1 then '}' else ',';
  }

  lemma Regroup(key: string, value: string, after: string, r: string)
    ensures key + ":" + value + after + r == key + (":" + (value + (after + r)))
  {
  }

  lemma FieldsLead(fields: seq<Field>, r: string)
    ensures (PrintFields(fields) + r)[0] == '}' <==> fields == []
    ensures fields != [] ==>
              PrintFields(fields) + r ==
              Quote(fields[0].key) + (":" + (Print(fields[0].value) + (FieldsAfter(fields) + r)))
    ensures fields != [] ==> Ends(FieldsAfter(fields) + r) && ((FieldsAfter(fields) + r)[0] == '}' <==> |fields| == 1)
  {
    if fields != [] {
      Regroup(Quote(fields[0].key), Print(fields[0].value), FieldsAfter(fields), r);
      FieldsAfterEnds(fields, r);
      assert Quote(fields[0].key)[0] == '"';
    }
  }

  lemma {:induction false} FieldsPrefixFree(a: seq<Field>, b: seq<Field>, ra: string, rb: string)
    requires PrintFields(a) + ra == PrintFields(b) + rb && Ends(ra) && Ends(rb)
    ensures a == b && ra == rb
    decreases a
  {
    FieldsLead(a, ra);
    FieldsLead(b, rb);
    if a == [] {
      SamePrefix("}", "}", ra, rb);
    } else {
      var xa, xb := FieldsAfter(a) + ra, FieldsAfter(b) + rb;
      QuotePrefixFree(a[0].key, b[0].key, ":" + (Print(a[0].value) + xa), ":" + (Print(b[0].value) + xb));
      SamePrefix(":", ":", Print(a[0].value) + xa, Print(b[0].value) + xb);
      PrintPrefixFree(a[0].value, b[0].value, xa, xb);
      FieldsRest(a, b, ra, rb);
    }
  }

  lemma FieldsRest(a: seq<Field>, b: seq<Field>, ra: string, rb: string)
    requires a != [] && b != [] && a[0] == b[0] && Ends(ra) && Ends(rb)
    requires FieldsAfter(a) + ra == FieldsAfter(b) + rb
    ensures a == b && ra == rb
    decreases a, 0
  {
    FieldsLead(a, ra);
    FieldsLead(b, rb);
    if |a| == 1 {
      SamePrefix("}", "}", ra, rb);
      assert a == [a[0]] && b == [b[0]];
    } else {
      DropHead(",", PrintFields(a[1..]), ra);
      DropHead(",", PrintFields(b[1..]), rb);
      SamePrefix(",", ",", PrintFields(a[1..]) + ra, PrintFields(b[1..]) + rb);
      FieldsPrefixFree(a[1..], b[1..], ra, rb);
      assert a == [a[0]] + a[1..] && b == [b[0]] + b[1..];
    }
  }
}
