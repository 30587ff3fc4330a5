/**
 What the canonical bytes are, said without the printer: UTF-8 of compact JSON whose keys ascend by code
 point at every depth, and which reads back as the normalized value.
 */
module CanonicalText {
  import opened Wrappers
  import opened Ordering
  import opened JsonText
  import opened JsonPrinter
  import opened JsonReader
  import opened CanonicalJson
  import Utf8

  ghost predicate KeysAscend(v: Json)
    decreases v
  {
    match v
    case JList(items) => forall i | 0 <= i < |items| :: KeysAscend(items[i])
    case JObject(fields) =>
      && (forall i, j | 0 <= i < j < |fields| :: ComesBefore(fields[i].key, fields[j].key))
      && (forall i | 0 <= i < |fields| :: KeysAscend(fields[i].value))
    case _ => true
  }

  lemma {:induction false} InOrderAscends(v: Json)
    requires WellFormed(v)
    ensures KeysAscend(InOrder(v))
    decreases v
  {
    match v {
      case JList(items) =>
        forall i | 0 <= i < |items| ensures KeysAscend(ItemsInOrder(items)[i]) {
          InOrderAscends(items[i]);
        }
      case JObject(fields) =>
        forall i | 0 <= i < |fields| ensures KeysAscend(ValuesInOrder(fields)[i].value) {
          InOrderAscends(fields[i].value);
        }
        FieldsAscend(fields);
      case _ =>
    }
  }

  lemma SortedKeysAscend(s: seq<Field>, i: nat, j: nat)
    requires i < j < |s| && KeyLess(s[i], s[j])
    ensures ComesBefore(s[i].key, s[j].key)
  {
    StringLessIs(s[i].key, s[j].key);
  }

  lemma MemberAscends(fields: seq<Field>, f: Field)
    requires f in fields && forall i | 0 <= i < |fields| :: KeysAscend(fields[i].value)
    ensures KeysAscend(f.value)
  {
  }

  lemma FieldsAscend(fields: seq<Field>)
    requires UniqueKeys(fields) && forall i | 0 <= i < |fields| :: KeysAscend(ValuesInOrder(fields)[i].value)
    ensures KeysAscend(JObject(Sort(KeyLess, ValuesInOrder(fields))))
  {
    var s := Sort(KeyLess, ValuesInOrder(fields));
    SortedFields(fields);
    forall i, j | 0 <= i < j < |s| ensures ComesBefore(s[i].key, s[j].key) {
      SortedKeysAscend(s, i, j);
    }
    forall i | 0 <= i < |s| ensures KeysAscend(s[i].value) {
      assert s[i] in s;
      MemberAscends(ValuesInOrder(fields), s[i]);
    }
  }

  /**
   The bytes of a value that is not refused decode to a text that reads as one value, with its keys in
   order at every depth, which means what the normalized value means.
   */
  lemma BytesReadBack(nfc: Nfc, v: Json) returns (text: string, w: Json)
    requires CollisionFree(nfc, v)
    ensures CanonicalDumps(nfc, v).Ok? && Utf8.Decode(CanonicalDumps(nfc, v).value) == Some(text)
    ensures Read(text) == Some(w) && KeysAscend(w) && Means(w) == Means(Normal(nfc, v))
  {
    var x := Normal(nfc, v);
    NormalizeExact(nfc, v);
    NormalWellFormed(nfc, v);
    text, w := Print(InOrder(x)), InOrder(x);
    Utf8.DecodesBack(text);
    ReadsIffPrinted(text, w);
    InOrderAscends(x);
    InOrderMeans(x);
  }
}
