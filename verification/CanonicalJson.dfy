/**
 `canonical_dumps`: NFC-normalize keys and strings, refuse colliding keys, sort keys, print, encode.
 NFC is any function on strings.  The main result: two values have the same canonical bytes exactly
 when their normalized forms are equal, dicts compared as mappings. Unlike Python's `==`, which holds
 of `True` and `1`, this equality tells booleans from integers, as their text does.
 */
module CanonicalJson {
  import opened Wrappers
  import opened Ordering
  import opened JsonText
  import opened JsonPrinter
  import Utf8

  type Nfc = string -> string

  predicate UniqueKeys(fields: seq<Field>) {
    forall i, j | 0 <= i < j < |fields| :: fields[i].key != fields[j].key
  }

  /** Every object is a dict: no key occurs twice. */
  predicate WellFormed(v: Json)
    decreases v
  {
    match v
    case JList(items) => forall i | 0 <= i < |items| :: WellFormed(items[i])
    case JObject(fields) => UniqueKeys(fields) && forall i | 0 <= i < |fields| :: WellFormed(fields[i].value)
    case _ => true
  }

  // ----- what a value means -----------------------------------------------------------------------

  /** A value without the order of its dicts; a boolean is never an integer. */
  datatype Meaning =
    | MNull
    | MBool(b: bool)
    | MInt(n: int)
    | MString(s: string)
    | MList(items: seq<Meaning>)
    | MObject(fields: map<string, Meaning>)

  function Means(v: Json): Meaning
    decreases v
  {
    match v
    case JNull => MNull
    case JBool(b) => MBool(b)
    case JInt(n) => MInt(n)
    case JString(s) => MString(s)
    case JList(items) => MList(ItemsMean(items))
    case JObject(fields) => MObject(FieldsMean(fields))
  }

  function ItemsMean(items: seq<Json>): (m: seq<Meaning>)
    ensures |m| == |items|
    decreases items
  {
    if items == [] then [] else [Means(items[0])] + ItemsMean(items[1..])
  }

  function FieldsMean(fields: seq<Field>): map<string, Meaning>
    decreases fields
  {
    if fields == [] then map[] else FieldsMean(fields[1..])[fields[0].key := Means(fields[0].value)]
  }

  lemma {:induction false} ItemsMeanAt(items: seq<Json>, i: nat)
    requires i < |items|
    ensures ItemsMean(items)[i] == Means(items[i])
  {
    if i > 0 {
      ItemsMeanAt(items[1..], i - 1);
    }
  }

  lemma UniqueTail(fields: seq<Field>)
    requires UniqueKeys(fields) && fields != []
    ensures UniqueKeys(fields[1..])
    ensures forall f | f in fields[1..] :: f.key != fields[0].key
    ensures forall f :: f in fields <==> f == fields[0] || f in fields[1..]
  {
    assert fields == [fields[0]] + fields[1..];
  }

  /** A dict maps each of its keys to the meaning of its value, and has no other keys. */
  lemma {:induction false} FieldsMeanExact(fields: seq<Field>)
    requires UniqueKeys(fields)
    ensures forall f | f in fields :: f.key in FieldsMean(fields) && FieldsMean(fields)[f.key] == Means(f.value)
    ensures forall k | k in FieldsMean(fields) :: exists f :: f in fields && f.key == k
  {
    if fields != [] {
      UniqueTail(fields);
      FieldsMeanExact(fields[1..]);
      forall k | k in FieldsMean(fields) ensures exists f :: f in fields && f.key == k {
        if k == fields[0].key {
          assert fields[0] in fields;
        } else {
          assert k in FieldsMean(fields[1..]);
          var f :| f in fields[1..] && f.key == k;
          assert f in fields;
        }
      }
    }
  }

  // ----- normalization ------------------------------------------------------------------------------

  predicate HasKey(fields: seq<Field>, key: string) {
    exists i :: 0 <= i < |fields| && fields[i].key == key
  }

  /** `_nfc`; the error is the key two input keys collide on. */
  function Normalize(nfc: Nfc, v: Json): Result<Json, string>
    decreases v
  {
    match v
    case JString(s) => Ok(JString(nfc(s)))
    case JList(items) =>
      (match NormalizeItems(nfc, items, [])
       case Ok(xs) => Ok(JList(xs))
       case Err(e) => Err(e))
    case JObject(fields) =>
      (match NormalizeFields(nfc, fields, [])
       case Ok(fs) => Ok(JObject(fs))
       case Err(e) => Err(e))
    case _ => Ok(v)
  }

  function NormalizeItems(nfc: Nfc, items: seq<Json>, done: seq<Json>): Result<seq<Json>, string>
    decreases items
  {
    if items == [] then Ok(done)
    else
      match Normalize(nfc, items[0])
      case Ok(x) => NormalizeItems(nfc, items[1..], done + [x])
      case Err(e) => Err(e)
  }

  function NormalizeFields(nfc: Nfc, fields: seq<Field>, done: seq<Field>): Result<seq<Field>, string>
    decreases fields
  {
    if fields == [] then Ok(done)
    else
      var key := nfc(fields[0].key);
      if HasKey(done, key) then Err(key)
      else
        match Normalize(nfc, fields[0].value)
        case Ok(x) => NormalizeFields(nfc, fields[1..], done + [Field(key, x)])
        case Err(e) => Err(e)
  }

  method NfcValue(nfc: Nfc, v: Json) returns (r: Result<Json, string>)
    ensures r == Normalize(nfc, v)
    decreases v
  {
    match v {
      case JString(s) => r := Ok(JString(nfc(s)));
      case JList(items) =>
        var done: seq<Json> := [];
        for i := 0 to |items|
          invariant NormalizeItems(nfc, items, []) == NormalizeItems(nfc, items[i..], done)
        {
          var x := NfcValue(nfc, items[i]);
          if x.Err? {
            return Err(x.error);
          }
          done := done + [x.value];
        }
        r := Ok(JList(done));
      case JObject(fields) =>
        var normalized: seq<Field> := [];
        for i := 0 to |fields|
          invariant NormalizeFields(nfc, fields, []) == NormalizeFields(nfc, fields[i..], normalized)
        {
          var key := nfc(fields[i].key);
          if HasKey(normalized, key) {
            return Err(key);
          }
          var x := NfcValue(nfc, fields[i].value);
          if x.Err? {
            return Err(x.error);
          }
          normalized := normalized + [Field(key, x.value)];
        }
        r := Ok(JObject(normalized));
      case _ => r := Ok(v);
    }
  }

  /** No two keys of a dict, at any depth, normalize to the same string. */
  predicate CollisionFree(nfc: Nfc, v: Json)
    decreases v
  {
    match v
    case JList(items) => forall i | 0 <= i < |items| :: CollisionFree(nfc, items[i])
    case JObject(fields) =>
      && (forall i, j | 0 <= i < j < |fields| :: nfc(fields[i].key) != nfc(fields[j].key))
      && (forall i | 0 <= i < |fields| :: CollisionFree(nfc, fields[i].value))
    case _ => true
  }

  /** The normalized form when nothing collides, written position by position. */
  function Normal(nfc: Nfc, v: Json): Json
    decreases v
  {
    match v
    case JString(s) => JString(nfc(s))
    case JList(items) => JList(NormalItems(nfc, items))
    case JObject(fields) => JObject(NormalFields(nfc, fields))
    case _ => v
  }

  function NormalItems(nfc: Nfc, items: seq<Json>): (r: seq<Json>)
    ensures |r| == |items|
    ensures forall i | 0 <= i < |items| :: r[i] == Normal(nfc, items[i])
    decreases items
  {
    if items == [] then [] else [Normal(nfc, items[0])] + NormalItems(nfc, items[1..])
  }

  function NormalFields(nfc: Nfc, fields: seq<Field>): (r: seq<Field>)
    ensures |r| == |fields|
    ensures forall i | 0 <= i < |fields| :: r[i] == Field(nfc(fields[i].key), Normal(nfc, fields[i].value))
    decreases fields
  {
    if fields == [] then []
    else [Field(nfc(fields[0].key), Normal(nfc, fields[0].value))] + NormalFields(nfc, fields[1..])
  }

  lemma {:induction false} NormalizeExact(nfc: Nfc, v: Json)
    ensures CollisionFree(nfc, v) ==> Normalize(nfc, v) == Ok(Normal(nfc, v))
    ensures !CollisionFree(nfc, v) ==> Normalize(nfc, v).Err?
    decreases v, 1
  {
    match v {
      case JList(items) => NormalizeListExact(nfc, items);
      case JObject(fields) => NormalizeObjectExact(nfc, fields);
      case _ =>
    }
  }

  lemma {:induction false} NormalizeListExact(nfc: Nfc, items: seq<Json>)
    ensures CollisionFree(nfc, JList(items)) ==> Normalize(nfc, JList(items)) == Ok(Normal(nfc, JList(items)))
    ensures !CollisionFree(nfc, JList(items)) ==> Normalize(nfc, JList(items)).Err?
    decreases JList(items), 0
  {
    NormalizeItemsExact(nfc, items, []);
    assert CollisionFree(nfc, JList(items)) <==> AllFree(nfc, items);
    assert [] + NormalItems(nfc, items) == NormalItems(nfc, items);
  }

  lemma {:induction false} NormalizeObjectExact(nfc: Nfc, fields: seq<Field>)
    ensures CollisionFree(nfc, JObject(fields)) ==> Normalize(nfc, JObject(fields)) == Ok(Normal(nfc, JObject(fields)))
    ensures !CollisionFree(nfc, JObject(fields)) ==> Normalize(nfc, JObject(fields)).Err?
    decreases JObject(fields), 0
  {
    NormalizeFieldsExact(nfc, fields, []);
    ClearOfNothing(nfc, fields);
    assert [] + NormalFields(nfc, fields) == NormalFields(nfc, fields);
  }

  ghost predicate AllFree(nfc: Nfc, items: seq<Json>) {
    forall i | 0 <= i < |items| :: CollisionFree(nfc, items[i])
  }

  lemma NormalizeItemsStep(nfc: Nfc, items: seq<Json>, done: seq<Json>)
    requires items != []
    requires CollisionFree(nfc, items[0]) ==> Normalize(nfc, items[0]) == Ok(Normal(nfc, items[0]))
    requires !CollisionFree(nfc, items[0]) ==> Normalize(nfc, items[0]).Err?
    ensures if CollisionFree(nfc, items[0])
            then NormalizeItems(nfc, items, done) == NormalizeItems(nfc, items[1..], done + [Normal(nfc, items[0])])
            else NormalizeItems(nfc, items, done).Err?
  {
  }

  lemma AllFreeStep(nfc: Nfc, items: seq<Json>)
    requires items != []
    ensures AllFree(nfc, items) <==> CollisionFree(nfc, items[0]) && AllFree(nfc, items[1..])
  {
    assert items == [items[0]] + items[1..];
    assert forall i | 0 <= i < |items| - 1 :: items[1..][i] == items[i + 1];
  }

  lemma {:induction false} NormalizeItemsExact(nfc: Nfc, items: seq<Json>, done: seq<Json>)
    ensures AllFree(nfc, items) ==> NormalizeItems(nfc, items, done) == Ok(done + NormalItems(nfc, items))
    ensures !AllFree(nfc, items) ==> NormalizeItems(nfc, items, done).Err?
    decreases items
  {
    if items == [] {
      assert done + [] == done;
    } else {
      NormalizeExact(nfc, items[0]);
      NormalizeItemsStep(nfc, items, done);
      AllFreeStep(nfc, items);
      if CollisionFree(nfc, items[0]) {
        var x := Normal(nfc, items[0]);
        NormalizeItemsExact(nfc, items[1..], done + [x]);
        assert done + [x] + NormalItems(nfc, items[1..]) == done + ([x] + NormalItems(nfc, items[1..]));
      }
    }
  }

  lemma HasKeySnoc(done: seq<Field>, f: Field, key: string)
    ensures HasKey(done + [f], key) <==> HasKey(done, key) || f.key == key
  {
    var all := done + [f];
    if HasKey(done, key) {
      var i :| 0 <= i < |done| && done[i].key == key;
      assert all[i].key == key;
    }
    assert all[|done|] == f;
  }

  /** The remaining fields can all be added to the ones already done. */
  ghost predicate Clear(nfc: Nfc, fields: seq<Field>, done: seq<Field>) {
    && (forall i, j | 0 <= i < j < |fields| :: nfc(fields[i].key) != nfc(fields[j].key))
    && (forall i | 0 <= i < |fields| :: CollisionFree(nfc, fields[i].value))
    && (forall i | 0 <= i < |fields| :: !HasKey(done, nfc(fields[i].key)))
  }

  lemma ClearOfNothing(nfc: Nfc, fields: seq<Field>)
    ensures Clear(nfc, fields, []) <==> CollisionFree(nfc, JObject(fields))
  {
    assert forall key :: !HasKey([], key);
  }

  lemma ClearStep(nfc: Nfc, fields: seq<Field>, done: seq<Field>, x: Json)
    requires fields != []
    requires !HasKey(done, nfc(fields[0].key)) && CollisionFree(nfc, fields[0].value)
    ensures Clear(nfc, fields, done) <==> Clear(nfc, fields[1..], done + [Field(nfc(fields[0].key), x)])
  {
    var f := Field(nfc(fields[0].key), x);
    var rest := fields[1..];
    assert forall i | 0 <= i < |rest| :: rest[i] == fields[i + 1];
    assert forall i | 1 <= i < |fields| :: fields[i] == rest[i - 1];
    forall key ensures HasKey(done + [f], key) <==> HasKey(done, key) || f.key == key {
      HasKeySnoc(done, f, key);
    }
  }

  /** One field: it stops the rest, or it is added and the rest goes on. */
  lemma NormalizeFieldsStep(nfc: Nfc, fields: seq<Field>, done: seq<Field>)
    requires fields != []
    requires CollisionFree(nfc, fields[0].value) ==> Normalize(nfc, fields[0].value) == Ok(Normal(nfc, fields[0].value))
    requires !CollisionFree(nfc, fields[0].value) ==> Normalize(nfc, fields[0].value).Err?
    ensures var key := nfc(fields[0].key);
            if HasKey(done, key) || !CollisionFree(nfc, fields[0].value) then NormalizeFields(nfc, fields, done).Err?
            else NormalizeFields(nfc, fields, done)
                 == NormalizeFields(nfc, fields[1..], done + [Field(key, Normal(nfc, fields[0].value))])
  {
  }

  lemma {:induction false} NormalizeFieldsExact(nfc: Nfc, fields: seq<Field>, done: seq<Field>)
    ensures Clear(nfc, fields, done) ==> NormalizeFields(nfc, fields, done) == Ok(done + NormalFields(nfc, fields))
    ensures !Clear(nfc, fields, done) ==> NormalizeFields(nfc, fields, done).Err?
    decreases fields
  {
    if fields == [] {
      assert done + [] == done;
    } else {
      NormalizeExact(nfc, fields[0].value);
      NormalizeFieldsStep(nfc, fields, done);
      var key := nfc(fields[0].key);
      if !HasKey(done, key) && CollisionFree(nfc, fields[0].value) {
        var f := Field(key, Normal(nfc, fields[0].value));
        ClearStep(nfc, fields, done, f.value);
        NormalizeFieldsExact(nfc, fields[1..], done + [f]);
        assert done + [f] + NormalFields(nfc, fields[1..]) == done + ([f] + NormalFields(nfc, fields[1..]));
      }
    }
  }

  lemma {:induction false} NormalWellFormed(nfc: Nfc, v: Json)
    requires CollisionFree(nfc, v)
    ensures WellFormed(Normal(nfc, v))
    decreases v
  {
    match v {
      case JList(items) =>
        forall i | 0 <= i < |items| ensures WellFormed(NormalItems(nfc, items)[i]) {
          NormalWellFormed(nfc, items[i]);
        }
      case JObject(fields) =>
        forall i | 0 <= i < |fields| ensures WellFormed(NormalFields(nfc, fields)[i].value) {
          NormalWellFormed(nfc, fields[i].value);
        }
      case _ =>
    }
  }

  // ----- sorted keys ---------------------------------------------------------------------------------

  predicate KeyLess(f: Field, g: Field) {
    StringLess(f.key, g.key)
  }

  /** `sort_keys=True` at every depth. */
  function InOrder(v: Json): Json
    decreases v
  {
    match v
    case JList(items) => JList(ItemsInOrder(items))
    case JObject(fields) => JObject(Sort(KeyLess, ValuesInOrder(fields)))
    case _ => v
  }

  function ItemsInOrder(items: seq<Json>): (r: seq<Json>)
    ensures |r| == |items|
    ensures forall i | 0 <= i < |items| :: r[i] == InOrder(items[i])
    decreases items
  {
    if items == [] then [] else [InOrder(items[0])] + ItemsInOrder(items[1..])
  }

  function ValuesInOrder(fields: seq<Field>): (r: seq<Field>)
    ensures |r| == |fields|
    ensures forall i | 0 <= i < |fields| :: r[i] == Field(fields[i].key, InOrder(fields[i].value))
    decreases fields
  {
    if fields == [] then [] else [Field(fields[0].key, InOrder(fields[0].value))] + ValuesInOrder(fields[1..])
  }

  lemma KeyLessStrict()
    ensures StrictOrder<Field>(KeyLess)
    ensures forall s: seq<Field> | UniqueKeys(s) :: NoTies(KeyLess, s)
  {
    StringLessStrict();
    forall f: Field, g: Field | f.key != g.key ensures KeyLess(f, g) || KeyLess(g, f) {
      StringLessTotal(f.key, g.key);
    }
  }

  /** Sorting a dict's fields keeps them and keeps the keys unique. */
  lemma SortedFields(fields: seq<Field>)
    requires UniqueKeys(fields)
    ensures var s := Sort(KeyLess, ValuesInOrder(fields));
            && StrictlySorted(KeyLess, s)
            && UniqueKeys(s)
            && (forall f :: f in s <==> f in ValuesInOrder(fields))
  {
    KeyLessStrict();
    var v := ValuesInOrder(fields);
    assert UniqueKeys(v);
    SortStrict(KeyLess, v);
    SortMembers(KeyLess, v);
    forall k: string ensures !StringLess(k, k) {
      StringLessIrreflexive(k);
    }
  }

  /** Putting keys in order does not change what a value means. */
  lemma {:induction false} InOrderMeans(v: Json)
    requires WellFormed(v)
    ensures Means(InOrder(v)) == Means(v)
    decreases v
  {
    match v {
      case JList(items) =>
        forall i | 0 <= i < |items| ensures ItemsMean(ItemsInOrder(items))[i] == ItemsMean(items)[i] {
          InOrderMeans(items[i]);
          ItemsMeanAt(items, i);
          ItemsMeanAt(ItemsInOrder(items), i);
        }
      case JObject(fields) =>
        forall i | 0 <= i < |fields| ensures Means(InOrder(fields[i].value)) == Means(fields[i].value) {
          InOrderMeans(fields[i].value);
        }
        FieldsInOrderMean(fields);
      case _ =>
    }
  }

  /** What a dict says about one of its positions, by position. */
  lemma FieldMeansAt(fields: seq<Field>, i: nat)
    requires UniqueKeys(fields) && i < |fields|
    ensures fields[i].key in FieldsMean(fields) && FieldsMean(fields)[fields[i].key] == Means(fields[i].value)
  {
    FieldsMeanExact(fields);
    assert fields[i] in fields;
  }

  lemma FieldOfKey(fields: seq<Field>, k: string) returns (i: nat)
    requires UniqueKeys(fields) && k in FieldsMean(fields)
    ensures i < |fields| && fields[i].key == k
  {
    FieldsMeanExact(fields);
    var f :| f in fields && f.key == k;
    i :| 0 <= i < |fields| && fields[i] == f;
  }

  ghost predicate Has(fields: seq<Field>, key: string, m: Meaning) {
    exists j :: 0 <= j < |fields| && fields[j].key == key && Means(fields[j].value) == m
  }

  /** Every field of `a` occurs in `b` with the same meaning. */
  ghost predicate Within(a: seq<Field>, b: seq<Field>) {
    forall i | 0 <= i < |a| :: Has(b, a[i].key, Means(a[i].value))
  }

  lemma HasMeans(fields: seq<Field>, key: string, m: Meaning)
    requires UniqueKeys(fields)
    ensures Has(fields, key, m) <==> key in FieldsMean(fields) && FieldsMean(fields)[key] == m
  {
    if Has(fields, key, m) {
      var j :| 0 <= j < |fields| && fields[j].key == key && Means(fields[j].value) == m;
      FieldMeansAt(fields, j);
    } else if key in FieldsMean(fields) {
      var j := FieldOfKey(fields, key);
      FieldMeansAt(fields, j);
    }
  }

  lemma WithinMeans(a: seq<Field>, b: seq<Field>)
    requires UniqueKeys(a) && UniqueKeys(b) && Within(a, b)
    ensures forall k | k in FieldsMean(a) :: k in FieldsMean(b) && FieldsMean(b)[k] == FieldsMean(a)[k]
  {
    forall k | k in FieldsMean(a) ensures k in FieldsMean(b) && FieldsMean(b)[k] == FieldsMean(a)[k] {
      var i := FieldOfKey(a, k);
      FieldMeansAt(a, i);
      HasMeans(b, k, FieldsMean(a)[k]);
    }
  }

  /** Two dicts with the same fields up to equal meanings mean the same. */
  lemma SameFieldsMean(a: seq<Field>, b: seq<Field>)
    requires UniqueKeys(a) && UniqueKeys(b) && Within(a, b) && Within(b, a)
    ensures FieldsMean(a) == FieldsMean(b)
  {
    WithinMeans(a, b);
    WithinMeans(b, a);
  }

  lemma ValueInSorted(fields: seq<Field>, i: nat) returns (j: nat)
    requires UniqueKeys(fields) && i < |fields|
    ensures var s := Sort(KeyLess, ValuesInOrder(fields));
            j < |s| && s[j] == Field(fields[i].key, InOrder(fields[i].value))
  {
    var v := ValuesInOrder(fields);
    SortMembers(KeyLess, v);
    assert v[i] in v;
    j :| 0 <= j < |v| && Sort(KeyLess, v)[j] == v[i];
  }

  lemma SortedFromValue(fields: seq<Field>, j: nat) returns (i: nat)
    requires UniqueKeys(fields) && j < |fields|
    ensures i < |fields| && Sort(KeyLess, ValuesInOrder(fields))[j] == Field(fields[i].key, InOrder(fields[i].value))
  {
    var v := ValuesInOrder(fields);
    var s := Sort(KeyLess, v);
    SortMembers(KeyLess, v);
    assert s[j] in s;
    i :| 0 <= i < |v| && v[i] == s[j];
  }

  lemma FieldsInOrderMean(fields: seq<Field>)
    requires UniqueKeys(fields)
    requires forall i | 0 <= i < |fields| :: Means(InOrder(fields[i].value)) == Means(fields[i].value)
    ensures FieldsMean(Sort(KeyLess, ValuesInOrder(fields))) == FieldsMean(fields)
  {
    var s := Sort(KeyLess, ValuesInOrder(fields));
    SortedFields(fields);
    forall i | 0 <= i < |fields| ensures Has(s, fields[i].key, Means(fields[i].value)) {
      var j := ValueInSorted(fields, i);
    }
    forall j | 0 <= j < |s| ensures Has(fields, s[j].key, Means(s[j].value)) {
      var i := SortedFromValue(fields, j);
    }
    SameFieldsMean(s, fields);
  }

  /** Equal meanings have the same sorted form. */
  lemma {:induction false} MeaningDeterminesOrder(a: Json, b: Json)
    requires WellFormed(a) && WellFormed(b) && Means(a) == Means(b)
    ensures InOrder(a) == InOrder(b)
    decreases a
  {
    match a {
      case JList(items) =>
        assert |items| == |ItemsMean(items)| == |ItemsMean(b.items)| == |b.items|;
        forall i | 0 <= i < |items| ensures ItemsInOrder(items)[i] == ItemsInOrder(b.items)[i] {
          ItemsMeanAt(items, i);
          ItemsMeanAt(b.items, i);
          MeaningDeterminesOrder(items[i], b.items[i]);
        }
      case JObject(fields) =>
        forall i, j | 0 <= i < |fields| && 0 <= j < |b.fields| && Means(fields[i].value) == Means(b.fields[j].value)
          ensures InOrder(fields[i].value) == InOrder(b.fields[j].value)
        {
          MeaningDeterminesOrder(fields[i].value, b.fields[j].value);
        }
        SameFieldsSorted(fields, b.fields);
      case _ =>
    }
  }

  lemma SameFieldsSorted(a: seq<Field>, b: seq<Field>)
    requires UniqueKeys(a) && UniqueKeys(b) && FieldsMean(a) == FieldsMean(b)
    requires forall i, j | 0 <= i < |a| && 0 <= j < |b| && Means(a[i].value) == Means(b[j].value) ::
               InOrder(a[i].value) == InOrder(b[j].value)
    ensures Sort(KeyLess, ValuesInOrder(a)) == Sort(KeyLess, ValuesInOrder(b))
  {
    SortedFields(a);
    SortedFields(b);
    KeyLessStrict();
    var x, y := ValuesInOrder(a), ValuesInOrder(b);
    forall i | 0 <= i < |a| ensures x[i] in y {
      var j := Partner(a, b, i);
      assert x[i] == y[j];
    }
    forall j | 0 <= j < |b| ensures y[j] in x {
      var i := Partner(b, a, j);
      assert x[i] == y[j];
    }
    StrictlySortedUnique(KeyLess, Sort(KeyLess, x), Sort(KeyLess, y));
  }

  /** A field of one dict has a partner with the same key and meaning in an equal dict. */
  lemma Partner(a: seq<Field>, b: seq<Field>, i: nat) returns (j: nat)
    requires UniqueKeys(a) && UniqueKeys(b) && FieldsMean(a) == FieldsMean(b) && i < |a|
    ensures j < |b| && b[j].key == a[i].key && Means(b[j].value) == Means(a[i].value)
  {
    FieldMeansAt(a, i);
    j := FieldOfKey(b, a[i].key);
    FieldMeansAt(b, j);
  }

  // ----- the canonical bytes ---------------------------------------------------------------------------

  function CanonicalDumps(nfc: Nfc, v: Json): Result<seq<Utf8.Byte>, string> {
    match Normalize(nfc, v)
    case Ok(n) => Ok(Utf8.Encode(Print(InOrder(n))))
    case Err(e) => Err(e)
  }

  /** The serializer refuses a value exactly when two keys of one of its dicts normalize alike. */
  lemma RefusedIffCollision(nfc: Nfc, v: Json)
    ensures CanonicalDumps(nfc, v).Ok? <==> CollisionFree(nfc, v)
  {
    NormalizeExact(nfc, v);
  }

  /** Same bytes exactly when the normalized values are equal up to the order of keys. */
  lemma SameBytesIffSameMeaning(nfc: Nfc, a: Json, b: Json)
    requires CollisionFree(nfc, a) && CollisionFree(nfc, b)
    ensures CanonicalDumps(nfc, a) == CanonicalDumps(nfc, b) <==> Means(Normal(nfc, a)) == Means(Normal(nfc, b))
  {
    var x, y := Normal(nfc, a), Normal(nfc, b);
    NormalizeExact(nfc, a);
    NormalizeExact(nfc, b);
    NormalWellFormed(nfc, a);
    NormalWellFormed(nfc, b);
    if Means(x) == Means(y) {
      MeaningDeterminesOrder(x, y);
    }
    if CanonicalDumps(nfc, a) == CanonicalDumps(nfc, b) {
      Utf8.EncodeInjective(Print(InOrder(x)), Print(InOrder(y)));
      assert Print(InOrder(x)) + "" == Print(InOrder(y)) + "";
      PrintPrefixFree(InOrder(x), InOrder(y), "", "");
      InOrderMeans(x);
      InOrderMeans(y);
    }
  }

  // ----- independence of insertion order ------------------------------------------------------------

  /** Equal values are normalized alike: both refused, or to equal values. */
  lemma {:induction false} NormalRespectsMeaning(nfc: Nfc, a: Json, b: Json)
    requires WellFormed(a) && WellFormed(b) && Means(a) == Means(b) && CollisionFree(nfc, a)
    ensures CollisionFree(nfc, b) && Means(Normal(nfc, a)) == Means(Normal(nfc, b))
    decreases a
  {
    match a {
      case JList(items) =>
        assert |items| == |ItemsMean(items)| == |ItemsMean(b.items)| == |b.items|;
        forall i | 0 <= i < |items|
          ensures CollisionFree(nfc, b.items[i])
          ensures ItemsMean(NormalItems(nfc, items))[i] == ItemsMean(NormalItems(nfc, b.items))[i]
        {
          ItemsMeanAt(items, i);
          ItemsMeanAt(b.items, i);
          NormalRespectsMeaning(nfc, items[i], b.items[i]);
          ItemsMeanAt(NormalItems(nfc, items), i);
          ItemsMeanAt(NormalItems(nfc, b.items), i);
        }
      case JObject(fields) =>
        forall i, j | 0 <= i < |fields| && 0 <= j < |b.fields| && Means(fields[i].value) == Means(b.fields[j].value)
          ensures CollisionFree(nfc, b.fields[j].value)
          ensures Means(Normal(nfc, fields[i].value)) == Means(Normal(nfc, b.fields[j].value))
        {
          NormalRespectsMeaning(nfc, fields[i].value, b.fields[j].value);
        }
        NormalFieldsRespect(nfc, fields, b.fields);
      case _ =>
    }
  }

  lemma NormalFieldsRespect(nfc: Nfc, a: seq<Field>, b: seq<Field>)
    requires UniqueKeys(a) && UniqueKeys(b) && FieldsMean(a) == FieldsMean(b)
    requires forall i, j | 0 <= i < j < |a| :: nfc(a[i].key) != nfc(a[j].key)
    requires forall i, j | 0 <= i < |a| && 0 <= j < |b| && Means(a[i].value) == Means(b[j].value) ::
               CollisionFree(nfc, b[j].value) && Means(Normal(nfc, a[i].value)) == Means(Normal(nfc, b[j].value))
    ensures CollisionFree(nfc, JObject(b))
    ensures FieldsMean(NormalFields(nfc, a)) == FieldsMean(NormalFields(nfc, b))
  {
    var x, y := NormalFields(nfc, a), NormalFields(nfc, b);
    forall i, j | 0 <= i < j < |b| ensures nfc(b[i].key) != nfc(b[j].key) {
      var k := Partner(b, a, i);
      var l := Partner(b, a, j);
      assert k != l;
    }
    forall j | 0 <= j < |b| ensures CollisionFree(nfc, b[j].value) {
      var i := Partner(b, a, j);
    }
    forall i | 0 <= i < |x| ensures Has(y, x[i].key, Means(x[i].value)) {
      var j := Partner(a, b, i);
      assert y[j].key == x[i].key;
    }
    forall j | 0 <= j < |y| ensures Has(x, y[j].key, Means(y[j].value)) {
      var i := Partner(b, a, j);
      assert x[i].key == y[j].key;
    }
    SameFieldsMean(x, y);
  }

  /** The serializer is a function of the value alone: equal dicts get equal bytes, or are refused together. */
  lemma InsertionOrderIrrelevant(nfc: Nfc, a: Json, b: Json)
    requires WellFormed(a) && WellFormed(b) && Means(a) == Means(b)
    ensures CanonicalDumps(nfc, a).Ok? == CanonicalDumps(nfc, b).Ok?
    ensures CanonicalDumps(nfc, a).Ok? ==> CanonicalDumps(nfc, a) == CanonicalDumps(nfc, b)
  {
    RefusedIffCollision(nfc, a);
    RefusedIffCollision(nfc, b);
    if CollisionFree(nfc, a) {
      NormalRespectsMeaning(nfc, a, b);
      SameBytesIffSameMeaning(nfc, a, b);
    } else if CollisionFree(nfc, b) {
      NormalRespectsMeaning(nfc, b, a);
    }
  }
}
