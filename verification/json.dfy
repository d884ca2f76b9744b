/** The JSON values the store keeps in memory and on disk, and the JavaScript notions the
    store applies to them. Serialisation and parsing are library code and stay uninterpreted. */
module JsonValues {
  import opened Wrappers
  import Paths

  /** A value JSON.parse can produce. Numbers are reals, so `-0` and `0` are one value.
      An object's members are its own properties in the order JavaScript enumerates
      them, which is the order JSON.stringify writes them in. */
  datatype Json =
    | JNull
    | JBool(b: bool)
    | JNumber(n: real)
    | JString(s: string)
    | JArray(items: seq<Json>)
    | JObject(members: seq<(string, Json)>)

  /** JavaScript truthiness: `null`, `false`, `0` and `""` are falsy; every array and object is truthy. */
  predicate Truthy(j: Json) {
    match j
    case JNull => false
    case JBool(b) => b
    case JNumber(n) => n != 0.0
    case JString(s) => s != ""
    case JArray(_) => true
    case JObject(_) => true
  }

  /** JSON.stringify(_, undefined, 2) and JSON.parse, taken as given functions.
      `parse` answers None where JSON.parse would throw. */
  datatype Codec = Codec(stringify: Json -> string, parse: string -> Option<Json>)

  /** The round-trip fact every reload argument assumes explicitly: parsing the text
      written for `j` gives `j` back. */
  predicate RoundTrips(codec: Codec, j: Json) {
    codec.parse(codec.stringify(j)) == Some(j)
  }

  /** The property names of an object's members, in enumeration order. */
  function Keys(ms: seq<(string, Json)>): (ks: seq<string>)
    ensures |ks| == |ms|
    ensures forall i | 0 <= i < |ms| :: ks[i] == ms[i].0
  {
    if ms == [] then [] else [ms[0].0] + Keys(ms[1..])
  }

  /** A string of decimal digits read as a number. */
  function DigitsValue(s: string): nat
    requires forall i | 0 <= i < |s| :: '0' <= s[i] <= '9'
  {
    if s == [] then 0 else 10 * DigitsValue(s[..|s| - 1]) + (s[|s| - 1] as int - '0' as int)
  }

  /** `key` is an array index: the canonical decimal text of a number below 2^32 - 1. */
  predicate IsArrayIndex(key: string) {
    && (forall i | 0 <= i < |key| :: '0' <= key[i] <= '9')
    && key == Paths.Decimal(DigitsValue(key))
    && DigitsValue(key) < 0xFFFF_FFFF
  }

  /** Ordinary objects enumerate array-index keys first, in ascending numeric order, and
      every other key after them in creation order: `a` is listed before a key `b`
      created after it exactly when this holds. */
  predicate ListedBefore(a: string, b: string) {
    !IsArrayIndex(b) || (IsArrayIndex(a) && DigitsValue(a) < DigitsValue(b))
  }

  /** Two distinct members of one object, `a` enumerated before `b`. */
  predicate InOrder(a: string, b: string) {
    a != b && (IsArrayIndex(b) ==> ListedBefore(a, b))
  }

  /** The members of a JavaScript object: distinct names, listed in enumeration order. */
  ghost predicate Enumerable(ms: seq<(string, Json)>) {
    forall i, j | 0 <= i < j < |ms| :: InOrder(ms[i].0, ms[j].0)
  }

  /** An object's members are in order when the first precedes all the others and the
      others are in order. */
  lemma EnumerableCons(m: (string, Json), rest: seq<(string, Json)>)
    requires Enumerable(rest) && forall x | x in rest :: InOrder(m.0, x.0)
    ensures Enumerable([m] + rest)
  {
    var ms := [m] + rest;
    forall i, j | 0 <= i < j < |ms| ensures InOrder(ms[i].0, ms[j].0) {
      assert ms[j] == rest[j - 1];
      if 0 < i {
        assert ms[i] == rest[i - 1];
      }
    }
  }

  /** Conversely, in an object's members the first precedes all the others, which are in order. */
  lemma EnumerableUncons(m: (string, Json), rest: seq<(string, Json)>)
    requires Enumerable([m] + rest)
    ensures Enumerable(rest) && forall x | x in rest :: InOrder(m.0, x.0)
  {
    var ms := [m] + rest;
    forall i, j | 0 <= i < j < |rest| ensures InOrder(rest[i].0, rest[j].0) {
      assert ms[i + 1] == rest[i] && ms[j + 1] == rest[j];
    }
    forall x | x in rest ensures InOrder(m.0, x.0) {
      var k :| 0 <= k < |rest| && rest[k] == x;
      assert ms[0] == m && ms[k + 1] == x;
    }
  }

  /** Distinct array indices have distinct values. */
  lemma IndexValuesDiffer(a: string, b: string)
    requires IsArrayIndex(a) && IsArrayIndex(b) && a != b
    ensures DigitsValue(a) != DigitsValue(b)
  {
  }

  /** The value of the member named `key`, if the object owns one. */
  function Lookup(ms: seq<(string, Json)>, key: string): (r: Option<Json>)
    ensures r.Some? <==> key in Keys(ms)
    ensures r.Some? ==> (key, r.value) in ms
  {
    if ms == [] then None else if ms[0].0 == key then Some(ms[0].1) else Lookup(ms[1..], key)
  }

  /** Putting a member in front of others: its name comes first, and it answers lookups
      of its own name. */
  lemma ConsMember(m: (string, Json), ms: seq<(string, Json)>)
    ensures Keys([m] + ms) == [m.0] + Keys(ms)
    ensures forall k :: Lookup([m] + ms, k) == if m.0 == k then Some(m.1) else Lookup(ms, k)
  {
    assert ([m] + ms)[1..] == ms;
  }

  /** Where a new property `key` goes: after the leading members listed before it, ahead
      of the first one that is not. */
  function InsertionPoint(ms: seq<(string, Json)>, key: string): (i: nat)
    ensures i <= |ms|
    ensures forall j | 0 <= j < i :: ListedBefore(ms[j].0, key)
    ensures i < |ms| ==> !ListedBefore(ms[i].0, key)
  {
    if ms == [] || !ListedBefore(ms[0].0, key) then 0
    else
      var rest := ms[1..];
      var i := InsertionPoint(rest, key);
      assert forall j | 0 <= j < i :: ms[j + 1] == rest[j];
      1 + i
  }

  /** Inserting into the members after the first is inserting one place further along. */
  lemma SpliceCons(ms: seq<(string, Json)>, i: nat, x: (string, Json), tail: seq<(string, Json)>)
    requires ms != [] && i < |ms|
    requires tail == ms[1..][..i] + [x] + ms[1..][i..]
    ensures [ms[0]] + tail == ms[..i + 1] + [x] + ms[i + 1..]
  {
    assert ms[..i + 1] == [ms[0]] + ms[1..][..i];
    assert ms[i + 1..] == ms[1..][i..];
  }

  /** A new property `key` joins the members where JavaScript enumerates it: after every
      member listed before it. */
  function AddMember(ms: seq<(string, Json)>, key: string, value: Json): (r: seq<(string, Json)>)
    ensures |r| == |ms| + 1
    ensures forall m | m in r :: m in ms || m == (key, value)
    ensures !IsArrayIndex(key) ==> r == ms + [(key, value)]
    ensures forall other | other != key :: Lookup(r, other) == Lookup(ms, other)
    ensures key !in Keys(ms) ==> Lookup(r, key) == Some(value)
  {
    if ms == [] then [(key, value)]
    else
      var rest := ms[1..];
      assert ms == [ms[0]] + rest;
      ConsMember(ms[0], rest);
      if ListedBefore(ms[0].0, key) then
        var tail := AddMember(rest, key, value);
        ConsMember(ms[0], tail);
        [ms[0]] + tail
      else
        ConsMember((key, value), ms);
        [(key, value)] + ms
  }

  /** A new property is inserted at its insertion point: the members before and after it
      keep their relative order. */
  lemma {:induction false} AddMemberInserts(ms: seq<(string, Json)>, key: string, value: Json)
    ensures var i := InsertionPoint(ms, key); AddMember(ms, key, value) == ms[..i] + [(key, value)] + ms[i..]
    decreases |ms|
  {
    if ms == [] {
    } else if ListedBefore(ms[0].0, key) {
      AddMemberInserts(ms[1..], key, value);
      AddMemberInsertsStep(ms, key, value);
    } else {
      assert InsertionPoint(ms, key) == 0 && AddMember(ms, key, value) == [(key, value)] + ms;
      assert ms[..0] == [] && ms[0..] == ms;
    }
  }

  /** The inductive step of AddMemberInserts: a first member listed before the new key
      stays first. */
  lemma AddMemberInsertsStep(ms: seq<(string, Json)>, key: string, value: Json)
    requires ms != [] && ListedBefore(ms[0].0, key)
    requires var i := InsertionPoint(ms[1..], key); AddMember(ms[1..], key, value) == ms[1..][..i] + [(key, value)] + ms[1..][i..]
    ensures var i := InsertionPoint(ms, key); AddMember(ms, key, value) == ms[..i] + [(key, value)] + ms[i..]
  {
    var i := InsertionPoint(ms[1..], key);
    AddMemberCons(ms, key, value);
    SpliceCons(ms, i, (key, value), AddMember(ms[1..], key, value));
  }

  /** Past a first member listed before the key, the insertion point moves one on and
      the first member stays in front. */
  lemma AddMemberCons(ms: seq<(string, Json)>, key: string, value: Json)
    requires ms != [] && ListedBefore(ms[0].0, key)
    ensures InsertionPoint(ms, key) == 1 + InsertionPoint(ms[1..], key)
    ensures AddMember(ms, key, value) == [ms[0]] + AddMember(ms[1..], key, value)
  {
  }

  /** The assignment obj[key] = value: an existing member keeps its place and takes the
      new value; a new one is added where JavaScript enumerates it. */
  function Assign(ms: seq<(string, Json)>, key: string, value: Json): (r: seq<(string, Json)>)
    ensures Lookup(r, key) == Some(value)
    ensures forall other | other != key :: Lookup(r, other) == Lookup(ms, other)
    ensures key in Keys(ms) ==> Keys(r) == Keys(ms)
    ensures Lookup(ms, key) == Some(value) ==> r == ms
    ensures key !in Keys(ms) && !IsArrayIndex(key) ==> Keys(r) == Keys(ms) + [key]
    ensures key !in Keys(ms) ==> var i := InsertionPoint(ms, key); r == ms[..i] + [(key, value)] + ms[i..]
    ensures key in Keys(ms) ==> |r| == |ms| && forall j | 0 <= j < |ms| && ms[j].0 != key :: r[j] == ms[j]
  {
    if key in Keys(ms) then Overwrite(ms, key, value)
    else
      KeysSnoc(ms, (key, value));
      AddMemberInserts(ms, key, value);
      AddMember(ms, key, value)
  }

  /** A member added at the end adds its name at the end. */
  lemma KeysSnoc(ms: seq<(string, Json)>, m: (string, Json))
    ensures Keys(ms + [m]) == Keys(ms) + [m.0]
  {
  }

  /** The member named `key` takes `value`, in place. */
  function Overwrite(ms: seq<(string, Json)>, key: string, value: Json): (r: seq<(string, Json)>)
    requires key in Keys(ms)
    ensures Keys(r) == Keys(ms)
    ensures Lookup(r, key) == Some(value)
    ensures forall other | other != key :: Lookup(r, other) == Lookup(ms, other)
    ensures Lookup(ms, key) == Some(value) ==> r == ms
    ensures |r| == |ms| && forall j | 0 <= j < |ms| && ms[j].0 != key :: r[j] == ms[j]
  {
    var rest := ms[1..];
    assert ms == [ms[0]] + rest;
    ConsMember(ms[0], rest);
    if ms[0].0 == key then
      ConsMember((key, value), rest);
      [(key, value)] + rest
    else
      var tail := Overwrite(rest, key, value);
      ConsMember(ms[0], tail);
      [ms[0]] + tail
  }

  /** A new key that the first member is not listed before is listed before every member. */
  lemma NewKeyPrecedes(m: (string, Json), rest: seq<(string, Json)>, key: string)
    requires Enumerable([m] + rest) && key !in Keys([m] + rest) && !ListedBefore(m.0, key)
    ensures forall x | x in [m] + rest :: InOrder(key, x.0)
  {
    var ms := [m] + rest;
    EnumerableUncons(m, rest);
    forall x | x in ms ensures InOrder(key, x.0) {
      var k :| 0 <= k < |ms| && ms[k] == x;
      assert Keys(ms)[k] == x.0;
      if x == m {
        if IsArrayIndex(m.0) {
          IndexValuesDiffer(m.0, key);
        }
      } else {
        assert x in rest && InOrder(m.0, x.0);
      }
    }
  }

  /** Adding a new property keeps the members of an object distinct and in JavaScript's
      enumeration order. */
  lemma {:induction false} AddMemberKeepsEnumerable(ms: seq<(string, Json)>, key: string, value: Json)
    requires Enumerable(ms) && key !in Keys(ms)
    ensures Enumerable(AddMember(ms, key, value))
    decreases |ms|
  {
    if ms != [] {
      var m, rest := ms[0], ms[1..];
      assert ms == [m] + rest;
      if ListedBefore(m.0, key) {
        EnumerableUncons(m, rest);
        var tail := AddMember(rest, key, value);
        assert AddMember(ms, key, value) == [m] + tail;
        assert Keys(ms) == [m.0] + Keys(rest);
        assert key !in Keys(rest) && m.0 != key;
        AddMemberKeepsEnumerable(rest, key, value);
        FirstStaysInOrder(m, rest, tail, (key, value));
      } else {
        assert AddMember(ms, key, value) == [(key, value)] + ms;
        NewKeyPrecedes(m, rest, key);
        EnumerableCons((key, value), ms);
      }
    }
  }

  /** A first member still precedes the others once a new member it precedes joins them. */
  lemma FirstStaysInOrder(m: (string, Json), rest: seq<(string, Json)>, tail: seq<(string, Json)>, x: (string, Json))
    requires Enumerable([m] + rest) && Enumerable(tail) && InOrder(m.0, x.0)
    requires forall y | y in tail :: y in rest || y == x
    ensures Enumerable([m] + tail)
  {
    forall y | y in tail
      ensures InOrder(m.0, y.0)
    {
      if y != x {
        var k :| 0 <= k < |rest| && rest[k] == y;
        assert ([m] + rest)[0] == m && ([m] + rest)[k + 1] == y;
      }
    }
    EnumerableCons(m, tail);
  }

  /** Members with the same names, in the same places, are in order as well. */
  lemma SameKeysKeepEnumerable(ms: seq<(string, Json)>, r: seq<(string, Json)>)
    requires Enumerable(ms) && Keys(r) == Keys(ms)
    ensures Enumerable(r)
  {
    forall i, j | 0 <= i < j < |r|
      ensures InOrder(r[i].0, r[j].0)
    {
      assert r[i].0 == Keys(r)[i] == ms[i].0;
      assert r[j].0 == Keys(r)[j] == ms[j].0;
    }
  }

  /** The assignment obj[key] = value keeps the members of an object distinct and in
      JavaScript's enumeration order. */
  lemma AssignKeepsEnumerable(ms: seq<(string, Json)>, key: string, value: Json)
    requires Enumerable(ms)
    ensures Enumerable(Assign(ms, key, value))
  {
    var r := Assign(ms, key, value);
    if key in Keys(ms) {
      SameKeysKeepEnumerable(ms, r);
    } else {
      AddMemberKeepsEnumerable(ms, key, value);
    }
  }
}
