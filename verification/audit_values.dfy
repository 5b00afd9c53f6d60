/** The values an audit event may carry, and their canonical JSON form: a dictionary's text
    depends on what it maps, not on the order its keys were inserted in. */
module AuditValues {
  import opened Records
  import opened Texts
  import opened CanonicalJson

  /** A Python value. `Real` is a float and `Other` an object of any other class, each with
      its `str`; an entry's key is the `str` of the dictionary key. */
  datatype Value =
    | Nothing
    | Flag(b: bool)
    | Whole(n: int)
    | Real(finite: bool, repr: string)
    | Uid(id: Uuid)
    | Instant(t: Time)
    | Enumerated(value: Value)
    | Text(text: string)
    | Other(repr: string)
    | Map(entries: Entries)
    | Array(elements: Elements)

  datatype Entries = NoEntries | Entry(key: string, value: Value, rest: Entries)

  datatype Elements = NoElements | Element(first: Value, rest: Elements)

  /** Later entries of the same key override earlier ones. */
  function EntryMap(entries: Entries): map<string, Value> {
    match entries
    case NoEntries => map[]
    case Entry(key, value, rest) => map[key := value] + EntryMap(rest)
  }

  // ---------------------------------------------------------------- key order

  /** Code-point order, as `sort_keys` uses. */
  predicate Less(a: string, b: string) {
    if b == "" then false
    else if a == "" then true
    else a[0] < b[0] || (a[0] == b[0] && Less(a[1..], b[1..]))
  }

  lemma {:induction false} LessIsTotal(a: string, b: string)
    ensures a == b || Less(a, b) || Less(b, a)
  {
    if a != "" && b != "" && a[0] == b[0] {
      LessIsTotal(a[1..], b[1..]);
      assert a == [a[0]] + a[1..] && b == [b[0]] + b[1..];
    }
  }

  lemma {:induction false} LessIsStrict(a: string)
    ensures !Less(a, a)
  {
    if a != "" {
      LessIsStrict(a[1..]);
    }
  }

  lemma {:induction false} LessIsTransitive(a: string, b: string, c: string)
    requires Less(a, b) && Less(b, c)
    ensures Less(a, c)
  {
    if a != "" && a[0] == b[0] == c[0] {
      LessIsTransitive(a[1..], b[1..], c[1..]);
    }
  }

  predicate Sorted(m: Members) {
    m.Member? ==> Sorted(m.rest) && (m.rest.Member? ==> Less(m.key, m.rest.key))
  }

  function MemberMap(m: Members): map<string, Json> {
    match m
    case NoMembers => map[]
    case Member(key, value, rest) => MemberMap(rest)[key := value]
  }

  lemma {:induction false} KeysFollow(m: Members, k: string)
    requires Sorted(m) && m.Member? && k in MemberMap(m.rest)
    ensures Less(m.key, k) && k != m.key
  {
    LessIsStrict(m.key);
    if k != m.rest.key {
      KeysFollow(m.rest, k);
      LessIsTransitive(m.key, m.rest.key, k);
    }
  }

  /** A sorted object is determined by what it maps. */
  lemma {:induction false} SortedMembersAreTheirMap(a: Members, b: Members)
    requires Sorted(a) && Sorted(b) && MemberMap(a) == MemberMap(b)
    ensures a == b
  {
    assert a.Member? ==> a.key in MemberMap(a);
    assert b.Member? ==> b.key in MemberMap(b);
    if a.Member? && b.Member? {
      SameFirstKey(a, b);
      assert a.value == MemberMap(a)[a.key] == b.value;
      RestMap(a);
      RestMap(b);
      SortedMembersAreTheirMap(a.rest, b.rest);
    }
  }

  lemma SameFirstKey(a: Members, b: Members)
    requires Sorted(a) && Sorted(b) && a.Member? && b.Member? && MemberMap(a).Keys == MemberMap(b).Keys
    ensures a.key == b.key
  {
    assert a.key in MemberMap(b) && b.key in MemberMap(a);
    if a.key != b.key {
      KeysFollow(a, b.key);
      KeysFollow(b, a.key);
      LessIsTransitive(a.key, b.key, a.key);
      LessIsStrict(a.key);
      assert false;
    }
  }

  lemma RestMap(m: Members)
    requires Sorted(m) && m.Member?
    ensures MemberMap(m.rest) == MemberMap(m) - {m.key}
  {
    if m.key in MemberMap(m.rest) {
      KeysFollow(m, m.key);
    }
  }

  // ---------------------------------------------------------------- canonical form

  /** Insert a member at its place, unless the key is there already. */
  function Put(key: string, value: Json, m: Members): Members {
    if m.NoMembers? then Member(key, value, NoMembers)
    else if key == m.key then m
    else if Less(key, m.key) then Member(key, value, m)
    else Member(m.key, m.value, Put(key, value, m.rest))
  }

  lemma {:induction false} PutKeepsOrder(key: string, value: Json, m: Members)
    requires Sorted(m)
    ensures Sorted(Put(key, value, m))
  {
    if m.Member? && key != m.key {
      LessIsTotal(key, m.key);
      if !Less(key, m.key) {
        PutKeepsOrder(key, value, m.rest);
      }
    }
  }

  lemma {:induction false} PutMaps(key: string, value: Json, m: Members)
    requires Sorted(m)
    ensures MemberMap(Put(key, value, m)) == map[key := value] + MemberMap(m)
  {
    if m.Member? && key != m.key {
      if Less(key, m.key) {
        SmallerKeyIsNew(key, m);
      } else {
        PutMaps(key, value, m.rest);
      }
    }
  }

  lemma SmallerKeyIsNew(key: string, m: Members)
    requires Sorted(m) && m.Member? && Less(key, m.key)
    ensures key !in MemberMap(m)
  {
    LessIsStrict(key);
    if key in MemberMap(m) && key != m.key {
      KeysFollow(m, key);
      LessIsTransitive(key, m.key, key);
    }
  }

  /** `_canonical_value`: floats and other objects become their text. */
  function Canonical(v: Value, stamp: Time -> string): Json {
    match v
    case Nothing => Null
    case Flag(b) => Bool(b)
    case Whole(n) => Int(n)
    case Real(_, repr) => Str(repr)
    case Uid(id) => Str(UuidText(id))
    case Instant(t) => Str(stamp(t))
    case Enumerated(value) => Canonical(value, stamp)
    case Text(text) => Str(text)
    case Other(repr) => Str(repr)
    case Map(entries) => Obj(CanonicalEntries(entries, stamp))
    case Array(elements) => List(CanonicalElements(elements, stamp))
  }

  function CanonicalEntries(entries: Entries, stamp: Time -> string): Members {
    match entries
    case NoEntries => NoMembers
    case Entry(key, value, rest) => Put(key, Canonical(value, stamp), CanonicalEntries(rest, stamp))
  }

  function CanonicalElements(elements: Elements, stamp: Time -> string): Items {
    match elements
    case NoElements => NoItems
    case Element(first, rest) => Item(Canonical(first, stamp), CanonicalElements(rest, stamp))
  }

  /** What each kind of value is printed as. */
  lemma CanonicalForms(v: Value, stamp: Time -> string)
    ensures v.Nothing? ==> Print(Canonical(v, stamp)) == "null"
    ensures v == Flag(true) ==> Print(Canonical(v, stamp)) == "true"
    ensures v == Flag(false) ==> Print(Canonical(v, stamp)) == "false"
    ensures v.Whole? ==> Canonical(v, stamp) == Int(v.n)
    ensures v.Text? ==> Canonical(v, stamp) == Str(v.text)
    ensures v.Real? || v.Other? ==> Canonical(v, stamp) == Str(v.repr)
    ensures v.Uid? ==> Canonical(v, stamp) == Str(UuidText(v.id))
    ensures v.Instant? ==> Canonical(v, stamp) == Str(stamp(v.t))
    ensures v.Enumerated? ==> Canonical(v, stamp) == Canonical(v.value, stamp)
  {
  }

  /** The values differ at most in floats of the first that are strings of their digits in the
      second, at any depth. */
  predicate FloatsAsText(a: Value, b: Value) {
    match a
    case Real(_, repr) => b == a || b == Text(repr)
    case Enumerated(value) => b.Enumerated? && FloatsAsText(value, b.value)
    case Map(entries) => b.Map? && EntriesAsText(entries, b.entries)
    case Array(elements) => b.Array? && ElementsAsText(elements, b.elements)
    case _ => b == a
  }

  predicate EntriesAsText(a: Entries, b: Entries) {
    match a
    case NoEntries => b.NoEntries?
    case Entry(key, value, rest) =>
      b.Entry? && b.key == key && FloatsAsText(value, b.value) && EntriesAsText(rest, b.rest)
  }

  predicate ElementsAsText(a: Elements, b: Elements) {
    match a
    case NoElements => b.NoElements?
    case Element(first, rest) => b.Element? && FloatsAsText(first, b.first) && ElementsAsText(rest, b.rest)
  }

  /** The canonical form does not tell a float from the string of its digits. */
  lemma {:induction false} FloatsAsTextAgree(a: Value, b: Value, stamp: Time -> string)
    requires FloatsAsText(a, b)
    ensures Canonical(a, stamp) == Canonical(b, stamp)
  {
    match a {
      case Enumerated(value) => FloatsAsTextAgree(value, b.value, stamp);
      case Map(entries) => FloatEntriesAgree(entries, b.entries, stamp);
      case Array(elements) => FloatElementsAgree(elements, b.elements, stamp);
      case _ =>
    }
  }

  lemma {:induction false} FloatEntriesAgree(a: Entries, b: Entries, stamp: Time -> string)
    requires EntriesAsText(a, b)
    ensures CanonicalEntries(a, stamp) == CanonicalEntries(b, stamp)
  {
    if a.Entry? {
      FloatsAsTextAgree(a.value, b.value, stamp);
      FloatEntriesAgree(a.rest, b.rest, stamp);
    }
  }

  lemma {:induction false} FloatElementsAgree(a: Elements, b: Elements, stamp: Time -> string)
    requires ElementsAsText(a, b)
    ensures CanonicalElements(a, stamp) == CanonicalElements(b, stamp)
  {
    if a.Element? {
      FloatsAsTextAgree(a.first, b.first, stamp);
      FloatElementsAgree(a.rest, b.rest, stamp);
    }
  }

  /** The canonical object is sorted, and maps each key to its value's canonical form. */
  lemma {:induction false} CanonicalEntriesMap(entries: Entries, stamp: Time -> string)
    ensures Sorted(CanonicalEntries(entries, stamp))
    ensures MemberMap(CanonicalEntries(entries, stamp))
      == map k | k in EntryMap(entries) :: Canonical(EntryMap(entries)[k], stamp)
  {
    if entries.Entry? {
      CanonicalEntriesMap(entries.rest, stamp);
      var value, rest := Canonical(entries.value, stamp), CanonicalEntries(entries.rest, stamp);
      PutKeepsOrder(entries.key, value, rest);
      PutMaps(entries.key, value, rest);
    }
  }

  /** The order in which a dictionary was filled does not reach its canonical text. */
  lemma InsertionOrderDoesNotMatter(a: Entries, b: Entries, stamp: Time -> string)
    requires EntryMap(a) == EntryMap(b)
    ensures Print(Canonical(Map(a), stamp)) == Print(Canonical(Map(b), stamp))
  {
    CanonicalEntriesMap(a, stamp);
    CanonicalEntriesMap(b, stamp);
    SortedMembersAreTheirMap(CanonicalEntries(a, stamp), CanonicalEntries(b, stamp));
  }

  /** Dictionaries with equal texts map the same keys to values with equal canonical forms. */
  lemma EqualTextsMapAlike(a: Entries, b: Entries, stamp: Time -> string)
    requires Print(Canonical(Map(a), stamp)) == Print(Canonical(Map(b), stamp))
    ensures EntryMap(a).Keys == EntryMap(b).Keys
    ensures forall k | k in EntryMap(a) :: Canonical(EntryMap(a)[k], stamp) == Canonical(EntryMap(b)[k], stamp)
  {
    PrintIsInjective(Canonical(Map(a), stamp), Canonical(Map(b), stamp));
    CanonicalEntriesMap(a, stamp);
    CanonicalEntriesMap(b, stamp);
    var m := MemberMap(CanonicalEntries(a, stamp));
    assert m.Keys == EntryMap(a).Keys && m.Keys == EntryMap(b).Keys;
    forall k | k in EntryMap(a) ensures Canonical(EntryMap(a)[k], stamp) == Canonical(EntryMap(b)[k], stamp) {
      assert m[k] == Canonical(EntryMap(a)[k], stamp);
    }
  }
}
