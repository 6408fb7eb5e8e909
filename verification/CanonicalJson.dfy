/**
 * `canonicalJson` of src/server/lib/crypto.ts: the normaliser that sorts keys, drops
 * undefined fields and refuses an object it has met before, and the text it prints.
 */
module CanonicalJson {
  import opened Common
  import opened Json

  datatype NonFinite = NAN | INFINITY | MINUS_INFINITY

  /**
   * A JavaScript value. An object has an identity, which the normaliser keeps in a set; its
   * keys are all different. A finite number is the token it prints as.
   */
  datatype Value =
    | Undefined
    | Null
    | Bool(b: bool)
    | Number(token: Text)
    | Odd(n: NonFinite)
    | Str(s: Text)
    | Arr(items: seq<Value>)
    | Obj(id: nat, members: seq<Member>)

  datatype Member = Member(key: Text, value: Value)

  predicate DistinctKeys(members: seq<Member>) {
    forall i, j :: 0 <= i < j < |members| ==> members[i].key != members[j].key
  }

  predicate WellFormed(v: Value) {
    match v
    case Number(token) => NumberToken(token)
    case Arr(items) => forall i :: 0 <= i < |items| ==> WellFormed(items[i])
    case Obj(_, members) => DistinctKeys(members) && forall i :: 0 <= i < |members| ==> WellFormed(members[i].value)
    case _ => true
  }

  /** `String(n)` of a number that is not finite. */
  function OddText(n: NonFinite): Text {
    match n
    case NAN => [78, 97, 78]
    case INFINITY => [73, 110, 102, 105, 110, 105, 116, 121]
    case MINUS_INFINITY => [45, 73, 110, 102, 105, 110, 105, 116, 121]
  }

  lemma OddSpelling()
    ensures OddText(NAN) == Ascii("NaN")
    ensures OddText(INFINITY) == Ascii("Infinity") && OddText(MINUS_INFINITY) == Ascii("-Infinity")
  {
  }

  // ---------------------------------------------------------------- key order

  /** The `<` of JavaScript strings: by code units, a prefix first. */
  predicate Less(a: Text, b: Text) {
    if b == [] then false
    else if a == [] then true
    else a[0] < b[0] || (a[0] == b[0] && Less(a[1..], b[1..]))
  }

  lemma {:induction false} LessIrreflexive(a: Text)
    ensures !Less(a, a)
  {
    if a != [] {
      LessIrreflexive(a[1..]);
    }
  }

  lemma {:induction false} LessTransitive(a: Text, b: Text, c: Text)
    requires Less(a, b) && Less(b, c)
    ensures Less(a, c)
  {
    if a != [] && a[0] == b[0] && b[0] == c[0] {
      LessTransitive(a[1..], b[1..], c[1..]);
    }
  }

  lemma {:induction false} LessTotal(a: Text, b: Text)
    ensures Less(a, b) || a == b || Less(b, a)
  {
    if a != [] && b != [] && a[0] == b[0] {
      LessTotal(a[1..], b[1..]);
      assert a == [a[0]] + a[1..] && b == [b[0]] + b[1..];
    }
  }

  predicate Ascending(members: seq<Member>) {
    forall i, j :: 0 <= i < j < |members| ==> Less(members[i].key, members[j].key)
  }

  /** The members as a map: what an object is once the order of its keys is forgotten. */
  function MapOf(members: seq<Member>): map<Text, Value> {
    if members == [] then map[]
    else MapOf(members[1..])[members[0].key := members[0].value]
  }

  lemma {:induction false} MapOfMembers(members: seq<Member>)
    requires DistinctKeys(members)
    ensures forall k :: k in MapOf(members) <==> exists i :: 0 <= i < |members| && members[i].key == k
    ensures forall i :: 0 <= i < |members| ==>
              members[i].key in MapOf(members) && MapOf(members)[members[i].key] == members[i].value
  {
    if members != [] {
      MapOfMembers(members[1..]);
      assert forall i :: 0 < i < |members| ==> members[i] == members[1..][i - 1];
      forall k | k in MapOf(members)
        ensures exists i :: 0 <= i < |members| && members[i].key == k
      {
        if k != members[0].key {
          var j :| 0 <= j < |members[1..]| && members[1..][j].key == k;
          assert members[j + 1].key == k;
        } else {
          assert members[0].key == k;
        }
      }
    }
  }

  function Inserted(m: Member, sorted: seq<Member>): (r: seq<Member>)
    ensures forall x :: x in r <==> x == m || x in sorted
  {
    if sorted == [] || Less(m.key, sorted[0].key) then [m] + sorted
    else
      assert sorted == [sorted[0]] + sorted[1..];
      [sorted[0]] + Inserted(m, sorted[1..])
  }

  /** The members that are not undefined, sorted by key. */
  function Sorted(members: seq<Member>): (r: seq<Member>)
    ensures forall x :: x in r <==> x in members && x.value != Undefined
  {
    if members == [] then []
    else
      assert members == [members[0]] + members[1..];
      if members[0].value == Undefined then Sorted(members[1..])
      else Inserted(members[0], Sorted(members[1..]))
  }

  function WithoutUndefined(m: map<Text, Value>): map<Text, Value> {
    map k | k in m && m[k] != Undefined :: m[k]
  }

  lemma {:induction false} InsertedAscending(m: Member, sorted: seq<Member>)
    requires Ascending(sorted) && forall i :: 0 <= i < |sorted| ==> sorted[i].key != m.key
    ensures Ascending(Inserted(m, sorted))
    ensures MapOf(Inserted(m, sorted)) == MapOf(sorted)[m.key := m.value]
  {
    if sorted != [] {
      var head, rest := sorted[0], sorted[1..];
      LessTotal(m.key, head.key);
      if Less(m.key, head.key) {
        forall i | 0 < i < |sorted|
          ensures Less(m.key, sorted[i].key)
        {
          LessTransitive(m.key, head.key, sorted[i].key);
        }
        assert ([m] + sorted)[1..] == sorted;
      } else {
        InsertedAscending(m, rest);
        var tail := Inserted(m, rest);
        forall i | 0 <= i < |tail|
          ensures Less(head.key, tail[i].key)
        {
          assert tail[i] in tail;
        }
        assert ([head] + tail)[1..] == tail;
      }
    }
  }

  lemma {:induction false} SortedAscending(members: seq<Member>)
    requires DistinctKeys(members)
    ensures Ascending(Sorted(members))
    ensures MapOf(Sorted(members)) == WithoutUndefined(MapOf(members))
  {
    hide Less, Inserted;
    if members != [] {
      var head, rest := members[0], members[1..];
      SortedAscending(rest);
      HeadNotInRest(members);
      var sorted := Sorted(rest);
      forall i | 0 <= i < |sorted|
        ensures sorted[i].key != head.key
      {
        assert sorted[i] in sorted && sorted[i] in rest;
      }
      if head.value != Undefined {
        InsertedAscending(head, sorted);
      }
      DefinedOnly(MapOf(rest), head.key, head.value);
    }
  }

  lemma DefinedOnly(m: map<Text, Value>, k: Text, v: Value)
    requires k !in m
    ensures WithoutUndefined(m[k := v]) == if v == Undefined then WithoutUndefined(m) else WithoutUndefined(m)[k := v]
  {
  }

  lemma AscendingDistinct(members: seq<Member>)
    requires Ascending(members)
    ensures DistinctKeys(members)
  {
    forall i, j | 0 <= i < j < |members|
      ensures members[i].key != members[j].key
    {
      LessIrreflexive(members[i].key);
    }
  }

  lemma HeadNotInRest(members: seq<Member>)
    requires members != [] && DistinctKeys(members)
    ensures members[0].key !in MapOf(members[1..])
  {
    var rest := members[1..];
    MapOfMembers(rest);
    hide MapOf;
    assert forall i :: 0 <= i < |rest| ==> rest[i].key != members[0].key;
  }

  lemma RestOfMap(members: seq<Member>)
    requires members != [] && DistinctKeys(members)
    ensures DistinctKeys(members[1..])
    ensures MapOf(members[1..]) == MapOf(members) - {members[0].key}
  {
    var head, rest := members[0], members[1..];
    var m := MapOf(rest);
    assert head.key !in m by { HeadNotInRest(members); }
    assert MapOf(members) == m[head.key := head.value];
    hide MapOf;
    assert m[head.key := head.value] - {head.key} == m;
  }

  lemma SmallestFirst(a: seq<Member>, b: seq<Member>)
    requires a != [] && b != [] && Ascending(a) && Ascending(b) && MapOf(a) == MapOf(b)
    ensures a[0] == b[0]
  {
    AscendingDistinct(a);
    AscendingDistinct(b);
    MapOfMembers(a);
    MapOfMembers(b);
    assert a[0].key in MapOf(b) && b[0].key in MapOf(a);
    var i :| 0 <= i < |b| && b[i].key == a[0].key;
    var j :| 0 <= j < |a| && a[j].key == b[0].key;
    hide MapOf;
    if i > 0 && j > 0 {
      LessTransitive(a[0].key, b[0].key, a[0].key);
      LessIrreflexive(a[0].key);
    }
  }

  /** Two ascending lists with one map are one list. */
  lemma {:induction false} AscendingUnique(a: seq<Member>, b: seq<Member>)
    requires Ascending(a) && Ascending(b) && MapOf(a) == MapOf(b)
    ensures a == b
  {
    hide Less;
    assert a != [] ==> a[0].key in MapOf(a);
    assert b != [] ==> b[0].key in MapOf(b);
    if a != [] && b != [] {
      SmallestFirst(a, b);
      AscendingDistinct(a);
      AscendingDistinct(b);
      RestOfMap(a);
      RestOfMap(b);
      AscendingUnique(a[1..], b[1..]);
      assert a == [a[0]] + a[1..] && b == [b[0]] + b[1..];
    }
  }

  // ---------------------------------------------------------------- the result

  /** The normalised value; at the top, and inside an array, undefined counts as null. */
  function Norm(v: Value): Json
    decreases v, 1, 0
  {
    match v
    case Undefined => JNull
    case Null => JNull
    case Bool(b) => JBool(b)
    case Number(token) => JNumber(token)
    case Odd(n) => JString(OddText(n))
    case Str(s) => JString(s)
    case Arr(items) => JArray(NormItems(items, v))
    case Obj(_, members) => JObject(NormMembers(Sorted(members), v))
  }

  function NormItems(items: seq<Value>, whole: Value): (r: seq<Json>)
    requires forall i :: 0 <= i < |items| ==> items[i] < whole
    ensures |r| == |items| && forall i :: 0 <= i < |r| ==> r[i] == Norm(items[i])
    decreases whole, 0, |items|
  {
    if items == [] then [] else [Norm(items[0])] + NormItems(items[1..], whole)
  }

  function NormMembers(members: seq<Member>, whole: Value): (r: seq<Entry>)
    requires forall i :: 0 <= i < |members| ==> members[i].value < whole
    ensures |r| == |members| && forall i :: 0 <= i < |r| ==> r[i] == Entry(members[i].key, Norm(members[i].value))
    decreases whole, 0, |members|
  {
    if members == [] then []
    else [Entry(members[0].key, Norm(members[0].value))] + NormMembers(members[1..], whole)
  }

  lemma {:induction false} NormValid(v: Value)
    requires WellFormed(v)
    ensures Valid(Norm(v))
    decreases v
  {
    match v
    case Arr(items) =>
      forall i | 0 <= i < |items|
        ensures Valid(Norm(items[i]))
      {
        NormValid(items[i]);
      }
    case Obj(_, members) =>
      var sorted := Sorted(members);
      forall i | 0 <= i < |sorted|
        ensures Valid(Norm(sorted[i].value))
      {
        assert sorted[i] in members;
        NormValid(sorted[i].value);
      }
    case _ =>
  }

  // -------------------------------------------------------- objects met again

  /** The objects of a value, in the order the normaliser meets them. */
  function Ids(v: Value): seq<nat>
    decreases v, 1, 0
  {
    match v
    case Arr(items) => IdsOfItems(items, |items|, v)
    case Obj(id, members) => [id] + IdsOfMembers(Sorted(members), |Sorted(members)|, v)
    case _ => []
  }

  function IdsOfItems(items: seq<Value>, n: nat, whole: Value): seq<nat>
    requires n <= |items| && forall i :: 0 <= i < |items| ==> items[i] < whole
    decreases whole, 0, n
  {
    if n == 0 then [] else IdsOfItems(items, n - 1, whole) + Ids(items[n - 1])
  }

  function IdsOfMembers(members: seq<Member>, n: nat, whole: Value): seq<nat>
    requires n <= |members| && forall i :: 0 <= i < |members| ==> members[i].value < whole
    decreases whole, 0, n
  {
    if n == 0 then [] else IdsOfMembers(members, n - 1, whole) + Ids(members[n - 1].value)
  }

  predicate NoRepeat(ids: seq<nat>) {
    forall i, j :: 0 <= i < j < |ids| ==> ids[i] != ids[j]
  }

  /** No object is met twice, and none that was met before. */
  predicate Fresh(ids: seq<nat>, seen: set<nat>) {
    NoRepeat(ids) && forall i :: 0 <= i < |ids| ==> ids[i] !in seen
  }

  function SetOf(ids: seq<nat>): set<nat> {
    set i | 0 <= i < |ids| :: ids[i]
  }

  lemma FreshJoined(a: seq<nat>, b: seq<nat>, seen: set<nat>)
    ensures Fresh(a + b, seen) <==> Fresh(a, seen) && Fresh(b, seen + SetOf(a))
    ensures SetOf(a + b) == SetOf(a) + SetOf(b)
  {
    var c := a + b;
    assert forall i :: 0 <= i < |a| ==> c[i] == a[i];
    assert forall i :: 0 <= i < |b| ==> c[|a| + i] == b[i];
    assert forall i :: |a| <= i < |c| ==> c[i] == b[i - |a|];
    if Fresh(c, seen) {
      assert Fresh(a, seen);
      forall i | 0 <= i < |b|
        ensures b[i] !in SetOf(a) && b[i] !in seen
      {
        assert c[|a| + i] == b[i];
      }
      forall i, j | 0 <= i < j < |b|
        ensures b[i] != b[j]
      {
        assert c[|a| + i] != c[|a| + j];
      }
    }
    if Fresh(a, seen) && Fresh(b, seen + SetOf(a)) {
      forall i, j | 0 <= i < j < |c|
        ensures c[i] != c[j]
      {
        if i < |a| {
          assert c[i] in SetOf(a);
        }
      }
    }
  }

  lemma {:induction false} ItemsPrefix(items: seq<Value>, n: nat, m: nat, whole: Value, seen: set<nat>)
    requires n <= m <= |items| && forall i :: 0 <= i < |items| ==> items[i] < whole
    requires Fresh(IdsOfItems(items, m, whole), seen)
    ensures Fresh(IdsOfItems(items, n, whole), seen)
    decreases m - n
  {
    hide Fresh, Ids;
    if n < m {
      FreshJoined(IdsOfItems(items, m - 1, whole), Ids(items[m - 1]), seen);
      ItemsPrefix(items, n, m - 1, whole, seen);
    }
  }

  lemma {:induction false} MembersPrefix(members: seq<Member>, n: nat, m: nat, whole: Value, seen: set<nat>)
    requires n <= m <= |members| && forall i :: 0 <= i < |members| ==> members[i].value < whole
    requires Fresh(IdsOfMembers(members, m, whole), seen)
    ensures Fresh(IdsOfMembers(members, n, whole), seen)
    decreases m - n
  {
    hide Fresh, Ids;
    if n < m {
      FreshJoined(IdsOfMembers(members, m - 1, whole), Ids(members[m - 1].value), seen);
      MembersPrefix(members, n, m - 1, whole, seen);
    }
  }

  /** The recursive normaliser, with the set of objects it has seen. */
  class Normaliser {
    var seen: set<nat>

    constructor ()
      ensures seen == {}
    {
      seen := {};
    }

    method Normalise(v: Value) returns (r: Result<Json>)
      modifies this
      ensures r.Success? <==> Fresh(Ids(v), old(seen))
      ensures r.Success? ==> r.value == Norm(v) && seen == old(seen) + SetOf(Ids(v))
      decreases v, 1
    {
      hide Fresh, SetOf, Sorted;
      NothingSeen(seen);
      match v {
        case Arr(items) =>
          var out := NormaliseItems(items, v);
          if out.Failure? {
            return Failure(InvalidState);
          }
          assert out.value == NormItems(items, v);
          return Success(JArray(out.value));
        case Obj(id, members) =>
          var entries := Sorted(members);
          FreshJoined([id], IdsOfMembers(entries, |entries|, v), seen);
          OneSeen(id, seen);
          if id in seen {
            return Failure(InvalidState);
          }
          seen := seen + {id};
          var out := NormaliseMembers(entries, v);
          if out.Failure? {
            return Failure(InvalidState);
          }
          assert out.value == NormMembers(entries, v);
          return Success(JObject(out.value));
        case _ => return Success(Norm(v));
      }
    }

    method NormaliseItems(items: seq<Value>, whole: Value) returns (r: Result<seq<Json>>)
      requires forall i :: 0 <= i < |items| ==> items[i] < whole
      modifies this
      ensures r.Success? <==> Fresh(IdsOfItems(items, |items|, whole), old(seen))
      ensures r.Success? ==> |r.value| == |items| && forall i :: 0 <= i < |items| ==> r.value[i] == Norm(items[i])
      ensures r.Success? ==> seen == old(seen) + SetOf(IdsOfItems(items, |items|, whole))
      decreases whole, 0
    {
      hide Fresh, SetOf, Norm, Ids;
      NothingSeen(seen);
      var out: seq<Json> := [];
      for k := 0 to |items|
        invariant |out| == k && forall i :: 0 <= i < k ==> out[i] == Norm(items[i])
        invariant Fresh(IdsOfItems(items, k, whole), old(seen))
        invariant seen == old(seen) + SetOf(IdsOfItems(items, k, whole))
      {
        FreshJoined(IdsOfItems(items, k, whole), Ids(items[k]), old(seen));
        var item := Normalise(items[k]);
        if item.Failure? {
          if Fresh(IdsOfItems(items, |items|, whole), old(seen)) {
            ItemsPrefix(items, k + 1, |items|, whole, old(seen));
          }
          return Failure(InvalidState);
        }
        out := out + [item.value];
      }
      return Success(out);
    }

    method NormaliseMembers(entries: seq<Member>, whole: Value) returns (r: Result<seq<Entry>>)
      requires forall i :: 0 <= i < |entries| ==> entries[i].value < whole
      modifies this
      ensures r.Success? <==> Fresh(IdsOfMembers(entries, |entries|, whole), old(seen))
      ensures r.Success? ==>
                && |r.value| == |entries|
                && forall i :: 0 <= i < |entries| ==> r.value[i] == Entry(entries[i].key, Norm(entries[i].value))
      ensures r.Success? ==> seen == old(seen) + SetOf(IdsOfMembers(entries, |entries|, whole))
      decreases whole, 0
    {
      hide Fresh, SetOf, Norm, Ids;
      NothingSeen(seen);
      var out: seq<Entry> := [];
      for k := 0 to |entries|
        invariant |out| == k && forall i :: 0 <= i < k ==> out[i] == Entry(entries[i].key, Norm(entries[i].value))
        invariant Fresh(IdsOfMembers(entries, k, whole), old(seen))
        invariant seen == old(seen) + SetOf(IdsOfMembers(entries, k, whole))
      {
        FreshJoined(IdsOfMembers(entries, k, whole), Ids(entries[k].value), old(seen));
        var value := Normalise(entries[k].value);
        if value.Failure? {
          if Fresh(IdsOfMembers(entries, |entries|, whole), old(seen)) {
            MembersPrefix(entries, k + 1, |entries|, whole, old(seen));
          }
          return Failure(InvalidState);
        }
        out := out + [Entry(entries[k].key, value.value)];
      }
      return Success(out);
    }
  }

  lemma NothingSeen(seen: set<nat>)
    ensures Fresh([], seen) && SetOf([]) == {}
  {
  }

  lemma OneSeen(id: nat, seen: set<nat>)
    ensures Fresh([id], seen) <==> id !in seen
    ensures SetOf([id]) == {id}
  {
    assert [id][0] == id;
  }

  /**
   * The canonical text: none for undefined, an error exactly when some object is met twice,
   * which includes an object merely shared by two fields, circular or not.
   */
  method CanonicalText(v: Value) returns (text: Result<Option<Text>>)
    ensures text.Failure? <==> !NoRepeat(Ids(v))
    ensures text.Success? ==> text.value == if v == Undefined then None else Some(Print(Norm(v)))
  {
    var normaliser := new Normaliser();
    var r := normaliser.Normalise(v);
    match r
    case Failure(e) => text := Failure(e);
    case Success(j) => text := Success(if v == Undefined then None else Some(Print(j)));
  }

  // ------------------------------------------------------- when texts agree

  predicate Scalar(v: Value) {
    !v.Arr? && !v.Obj?
  }

  /**
   * Scalars that the text does not tell apart: undefined stands for null, and a number that is
   * not finite for the string of its name.
   */
  predicate Interchangeable(a: Value, b: Value) {
    || a == b
    || ((a.Undefined? || a.Null?) && (b.Undefined? || b.Null?))
    || (a.Odd? && b == Str(OddText(a.n)))
    || (b.Odd? && a == Str(OddText(b.n)))
  }

  lemma ScalarsAgree(a: Value, b: Value)
    requires Scalar(a) && Scalar(b)
    ensures Norm(a) == Norm(b) <==> Interchangeable(a, b)
  {
  }

  /**
   * Equality of values up to what the text does not show: the order of an object's keys, fields
   * that are undefined, object identity, and scalars that are interchangeable.
   */
  ghost predicate Same(a: Value, b: Value)
    decreases a
  {
    if a.Arr? && b.Arr? then
      |a.items| == |b.items| && forall i :: 0 <= i < |a.items| ==> Same(a.items[i], b.items[i])
    else if a.Obj? && b.Obj? then
      && (forall i :: 0 <= i < |a.members| && a.members[i].value != Undefined ==>
            exists j :: 0 <= j < |b.members| && b.members[j].key == a.members[i].key && b.members[j].value != Undefined
                        && Same(a.members[i].value, b.members[j].value))
      && (forall j :: 0 <= j < |b.members| && b.members[j].value != Undefined ==>
            exists i :: 0 <= i < |a.members| && a.members[i].key == b.members[j].key && a.members[i].value != Undefined)
    else
      Scalar(a) && Scalar(b) && Interchangeable(a, b)
  }

  /** The keys of a list of members, each with no value to speak of. */
  function Keyed(members: seq<Member>): seq<Member> {
    seq(|members|, i requires 0 <= i < |members| => Member(members[i].key, Null))
  }

  lemma {:induction false} KeyedMap(members: seq<Member>)
    ensures MapOf(Keyed(members)) == map k | k in MapOf(members) :: Null
  {
    if members != [] {
      KeyedMap(members[1..]);
      assert Keyed(members)[1..] == Keyed(members[1..]);
    }
  }

  ghost predicate HasKey(members: seq<Member>, k: Text) {
    exists i :: 0 <= i < |members| && members[i].key == k
  }

  lemma MapHasKey(members: seq<Member>)
    requires DistinctKeys(members)
    ensures forall k :: k in MapOf(members) <==> HasKey(members, k)
  {
    MapOfMembers(members);
  }

  /** Two ascending lists with the same keys have them in the same places. */
  lemma SameKeys(a: seq<Member>, b: seq<Member>)
    requires Ascending(a) && Ascending(b)
    requires forall k :: HasKey(a, k) <==> HasKey(b, k)
    ensures |a| == |b| && forall i :: 0 <= i < |a| ==> a[i].key == b[i].key
  {
    AscendingDistinct(a);
    AscendingDistinct(b);
    MapHasKey(a);
    MapHasKey(b);
    KeyedMap(a);
    KeyedMap(b);
    hide MapOf, Less, HasKey;
    assert forall k :: k in MapOf(a) <==> k in MapOf(b);
    AscendingUnique(Keyed(a), Keyed(b));
    assert |Keyed(a)| == |Keyed(b)|;
    forall i | 0 <= i < |a|
      ensures a[i].key == b[i].key
    {
      assert Keyed(a)[i] == Keyed(b)[i];
    }
  }

  lemma OneOfKey(members: seq<Member>, i: nat, j: nat)
    requires DistinctKeys(members) && i < |members| && j < |members| && members[i].key == members[j].key
    ensures i == j
  {
  }

  /** Where a defined member of an object stands in its sorted list. */
  lemma PlaceOf(members: seq<Member>, i: nat) returns (p: nat)
    requires i < |members| && members[i].value != Undefined
    ensures p < |Sorted(members)| && Sorted(members)[p] == members[i]
  {
    assert members[i] in Sorted(members);
    p :| p < |Sorted(members)| && Sorted(members)[p] == members[i];
  }

  lemma OriginOf(members: seq<Member>, p: nat) returns (i: nat)
    requires p < |Sorted(members)|
    ensures i < |members| && members[i] == Sorted(members)[p] && members[i].value != Undefined
  {
    assert Sorted(members)[p] in Sorted(members);
    assert Sorted(members)[p] in members;
    i :| i < |members| && members[i] == Sorted(members)[p];
  }

  /** Normalised objects are equal when their sorted members are, key by key and value by value. */
  lemma ObjectsAgree(a: Value, b: Value)
    requires a.Obj? && b.Obj?
    ensures Norm(a) == Norm(b) <==>
              var s, t := Sorted(a.members), Sorted(b.members);
              |s| == |t| && forall p :: 0 <= p < |s| ==> s[p].key == t[p].key && Norm(s[p].value) == Norm(t[p].value)
  {
    hide Sorted;
    var x, y := NormMembers(Sorted(a.members), a), NormMembers(Sorted(b.members), b);
    assert Norm(a) == JObject(x) && Norm(b) == JObject(y);
    assert x == y <==> |x| == |y| && forall p :: 0 <= p < |x| ==> x[p] == y[p];
  }

  /** The member of `b` that stands for a defined member of `a`, and the other way round. */
  ghost predicate Stands(a: Value, b: Value, i: nat, j: nat)
    requires a.Obj? && b.Obj?
  {
    && i < |a.members| && j < |b.members| && a.members[i].key == b.members[j].key
    && a.members[i].value != Undefined && b.members[j].value != Undefined
  }

  lemma SameMember(a: Value, b: Value, i: nat) returns (j: nat)
    requires a.Obj? && b.Obj? && Same(a, b) && i < |a.members| && a.members[i].value != Undefined
    ensures Stands(a, b, i, j) && Same(a.members[i].value, b.members[j].value)
  {
    hide Norm;
    j :| j < |b.members| && b.members[j].key == a.members[i].key && b.members[j].value != Undefined
         && Same(a.members[i].value, b.members[j].value);
  }

  lemma SameMemberBack(a: Value, b: Value, j: nat) returns (i: nat)
    requires a.Obj? && b.Obj? && Same(a, b) && j < |b.members| && b.members[j].value != Undefined
    ensures Stands(a, b, i, j)
  {
    hide Norm;
    i :| i < |a.members| && a.members[i].key == b.members[j].key && a.members[i].value != Undefined;
  }

  lemma {:induction false} NormEqualThenSame(a: Value, b: Value)
    requires WellFormed(a) && WellFormed(b) && Norm(a) == Norm(b)
    ensures Same(a, b)
    decreases a, 2
  {
    if a.Arr? {
      NormEqualThenSameItems(a, b);
    } else if a.Obj? {
      NormEqualThenSameObjects(a, b);
    } else {
      ScalarsAgree(a, b);
    }
  }

  lemma {:induction false} NormEqualThenSameItems(a: Value, b: Value)
    requires a.Arr? && WellFormed(a) && WellFormed(b) && Norm(a) == Norm(b)
    ensures Same(a, b)
    decreases a, 0
  {
    assert b.Arr? && NormItems(a.items, a) == NormItems(b.items, b);
    hide Norm, WellFormed;
    forall i | 0 <= i < |a.items|
      ensures Same(a.items[i], b.items[i])
    {
      assert NormItems(a.items, a)[i] == NormItems(b.items, b)[i];
      assert WellFormed(a.items[i]) && WellFormed(b.items[i]) by { WellFormedItems(a, b, i); }
      NormEqualThenSame(a.items[i], b.items[i]);
    }
  }

  lemma WellFormedItems(a: Value, b: Value, i: nat)
    requires a.Arr? && b.Arr? && WellFormed(a) && WellFormed(b) && i < |a.items| && i < |b.items|
    ensures WellFormed(a.items[i]) && WellFormed(b.items[i])
  {
  }

  lemma WellFormedMembers(a: Value)
    requires a.Obj? && WellFormed(a)
    ensures DistinctKeys(a.members) && forall i :: 0 <= i < |a.members| ==> WellFormed(a.members[i].value)
  {
  }

  lemma {:induction false} NormEqualThenSameObjects(a: Value, b: Value)
    requires a.Obj? && b.Obj? && WellFormed(a) && WellFormed(b) && Norm(a) == Norm(b)
    ensures Same(a, b)
    decreases a, 1
  {
    hide Sorted, Norm, WellFormed;
    forall i: nat | i < |a.members| && a.members[i].value != Undefined
      ensures exists j ::
                0 <= j < |b.members| && b.members[j].key == a.members[i].key && b.members[j].value != Undefined
                          && Same(a.members[i].value, b.members[j].value)
    {
      var j := MemberAgain(a, b, i);
    }
    forall j: nat | j < |b.members| && b.members[j].value != Undefined
      ensures exists i ::
                0 <= i < |a.members| && a.members[i].key == b.members[j].key && a.members[i].value != Undefined
    {
      var i := MemberBefore(a, b, j);
    }
  }

  lemma {:induction false} MemberAgain(a: Value, b: Value, i: nat) returns (j: nat)
    requires a.Obj? && b.Obj? && WellFormed(a) && WellFormed(b) && Norm(a) == Norm(b)
    requires i < |a.members| && a.members[i].value != Undefined
    ensures Stands(a, b, i, j) && Same(a.members[i].value, b.members[j].value)
    decreases a, 0
  {
    WellFormedMembers(a);
    WellFormedMembers(b);
    hide Sorted, Norm, WellFormed, Same;
    ObjectsAgree(a, b);
    var p := PlaceOf(a.members, i);
    j := OriginOf(b.members, p);
    NormEqualThenSame(a.members[i].value, b.members[j].value);
  }

  lemma MemberBefore(a: Value, b: Value, j: nat) returns (i: nat)
    requires a.Obj? && b.Obj? && Norm(a) == Norm(b)
    requires j < |b.members| && b.members[j].value != Undefined
    ensures Stands(a, b, i, j)
  {
    hide Sorted, Norm;
    ObjectsAgree(a, b);
    var p := PlaceOf(b.members, j);
    i := OriginOf(a.members, p);
  }

  lemma {:induction false} SameThenNormEqual(a: Value, b: Value)
    requires WellFormed(a) && WellFormed(b) && Same(a, b)
    ensures Norm(a) == Norm(b)
    decreases a, 1
  {
    if a.Arr? {
      forall i | 0 <= i < |a.items|
        ensures Norm(a.items[i]) == Norm(b.items[i])
      {
        SameThenNormEqual(a.items[i], b.items[i]);
      }
      assert NormItems(a.items, a) == NormItems(b.items, b);
    } else if a.Obj? {
      SameThenNormEqualObjects(a, b);
    } else {
      ScalarsAgree(a, b);
    }
  }

  lemma SameSortedKeys(a: Value, b: Value)
    requires a.Obj? && b.Obj? && DistinctKeys(a.members) && DistinctKeys(b.members) && Same(a, b)
    ensures |Sorted(a.members)| == |Sorted(b.members)|
    ensures forall p :: 0 <= p < |Sorted(a.members)| ==> Sorted(a.members)[p].key == Sorted(b.members)[p].key
  {
    hide Norm, Same, Sorted, Less, MapOf;
    var s, t := Sorted(a.members), Sorted(b.members);
    SortedAscending(a.members);
    SortedAscending(b.members);
    forall k: Text
      ensures HasKey(s, k) <==> HasKey(t, k)
    {
      if p: nat :| p < |s| && s[p].key == k {
        var i := OriginOf(a.members, p);
        var j := SameMember(a, b, i);
        var q := PlaceOf(b.members, j);
        assert t[q].key == k;
      }
      if q: nat :| q < |t| && t[q].key == k {
        var j := OriginOf(b.members, q);
        var i := SameMemberBack(a, b, j);
        var p := PlaceOf(a.members, i);
        assert s[p].key == k;
      }
    }
    SameKeys(s, t);
  }

  lemma {:induction false} SameThenNormEqualObjects(a: Value, b: Value)
    requires a.Obj? && b.Obj? && WellFormed(a) && WellFormed(b) && Same(a, b)
    ensures Norm(a) == Norm(b)
    decreases a, 0
  {
    WellFormedMembers(a);
    WellFormedMembers(b);
    hide Norm, Sorted, Same, WellFormed;
    var s, t := Sorted(a.members), Sorted(b.members);
    SameSortedKeys(a, b);
    forall p: nat | p < |s|
      ensures Norm(s[p].value) == Norm(t[p].value)
    {
      var i := OriginOf(a.members, p);
      var k := OriginOf(b.members, p);
      var j := SameMember(a, b, i);
      OneOfKey(b.members, j, k);
      SameThenNormEqual(a.members[i].value, b.members[k].value);
    }
    ObjectsAgree(a, b);
  }

  /**
   * What the canonical text identifies: two values have one text exactly when they are the same
   * but for key order, undefined fields, object identity and interchangeable scalars.
   */
  lemma CanonicalExactly(a: Value, b: Value)
    requires WellFormed(a) && WellFormed(b)
    ensures Print(Norm(a)) == Print(Norm(b)) <==> Same(a, b)
  {
    hide Print, Norm, Same;
    NormValid(a);
    NormValid(b);
    PrintInjective(Norm(a), Norm(b));
    if Norm(a) == Norm(b) {
      NormEqualThenSame(a, b);
    } else if Same(a, b) {
      SameThenNormEqual(a, b);
    }
  }

  /** Values JSON can say: every number finite, and undefined nowhere but as a field. */
  predicate Sayable(v: Value) {
    match v
    case Undefined => false
    case Odd(_) => false
    case Arr(items) => forall i :: 0 <= i < |items| ==> Sayable(items[i])
    case Obj(_, members) =>
      forall i :: 0 <= i < |members| && members[i].value != Undefined ==> Sayable(members[i].value)
    case _ => true
  }

  /** Equal but for key order, undefined fields and object identity. */
  ghost predicate Equivalent(a: Value, b: Value)
    decreases a
  {
    if a.Arr? && b.Arr? then
      |a.items| == |b.items| && forall i :: 0 <= i < |a.items| ==> Equivalent(a.items[i], b.items[i])
    else if a.Obj? && b.Obj? then
      && (forall i :: 0 <= i < |a.members| && a.members[i].value != Undefined ==>
            exists j :: 0 <= j < |b.members| && b.members[j].key == a.members[i].key && b.members[j].value != Undefined
                        && Equivalent(a.members[i].value, b.members[j].value))
      && (forall j :: 0 <= j < |b.members| && b.members[j].value != Undefined ==>
            exists i :: 0 <= i < |a.members| && a.members[i].key == b.members[j].key && a.members[i].value != Undefined)
    else
      SameScalar(a, b)
  }

  predicate SameScalar(a: Value, b: Value) {
    Scalar(a) && a == b
  }

  lemma {:induction false} SameIsEquivalent(a: Value, b: Value)
    requires Sayable(a) && Sayable(b)
    ensures Same(a, b) <==> Equivalent(a, b)
    decreases a, 1
  {
    if a.Arr? && b.Arr? {
      forall i | 0 <= i < |a.items| && i < |b.items|
        ensures Same(a.items[i], b.items[i]) <==> Equivalent(a.items[i], b.items[i])
      {
        SameIsEquivalent(a.items[i], b.items[i]);
      }
    } else if a.Obj? && b.Obj? {
      if Same(a, b) {
        SameObjectsEquivalent(a, b);
      }
      if Equivalent(a, b) {
        EquivalentObjectsSame(a, b);
      }
    }
  }

  lemma {:induction false} SameObjectsEquivalent(a: Value, b: Value)
    requires a.Obj? && b.Obj? && Sayable(a) && Sayable(b) && Same(a, b)
    ensures Equivalent(a, b)
    decreases a, 0
  {
    hide Same, Interchangeable;
    forall i: nat | i < |a.members| && a.members[i].value != Undefined
      ensures exists j ::
                0 <= j < |b.members| && b.members[j].key == a.members[i].key && b.members[j].value != Undefined
                          && Equivalent(a.members[i].value, b.members[j].value)
    {
      var j := SameMember(a, b, i);
      SameIsEquivalent(a.members[i].value, b.members[j].value);
    }
    forall j: nat | j < |b.members| && b.members[j].value != Undefined
      ensures exists i ::
                0 <= i < |a.members| && a.members[i].key == b.members[j].key && a.members[i].value != Undefined
    {
      var i := SameMemberBack(a, b, j);
    }
  }

  lemma EquivalentMember(a: Value, b: Value, i: nat) returns (j: nat)
    requires a.Obj? && b.Obj? && Equivalent(a, b) && i < |a.members| && a.members[i].value != Undefined
    ensures Stands(a, b, i, j) && Equivalent(a.members[i].value, b.members[j].value)
  {
    hide SameScalar;
    j :| j < |b.members| && b.members[j].key == a.members[i].key && b.members[j].value != Undefined
         && Equivalent(a.members[i].value, b.members[j].value);
  }

  lemma EquivalentMemberBack(a: Value, b: Value, j: nat) returns (i: nat)
    requires a.Obj? && b.Obj? && Equivalent(a, b) && j < |b.members| && b.members[j].value != Undefined
    ensures Stands(a, b, i, j)
  {
    hide SameScalar;
    i :| i < |a.members| && a.members[i].key == b.members[j].key && a.members[i].value != Undefined;
  }

  lemma {:induction false} EquivalentObjectsSame(a: Value, b: Value)
    requires a.Obj? && b.Obj? && Sayable(a) && Sayable(b) && Equivalent(a, b)
    ensures Same(a, b)
    decreases a, 0
  {
    hide Equivalent, Interchangeable;
    forall i: nat | i < |a.members| && a.members[i].value != Undefined
      ensures exists j ::
                0 <= j < |b.members| && b.members[j].key == a.members[i].key && b.members[j].value != Undefined
                          && Same(a.members[i].value, b.members[j].value)
    {
      var j := EquivalentMember(a, b, i);
      SameIsEquivalent(a.members[i].value, b.members[j].value);
    }
    forall j: nat | j < |b.members| && b.members[j].value != Undefined
      ensures exists i ::
                0 <= i < |a.members| && a.members[i].key == b.members[j].key && a.members[i].value != Undefined
    {
      var i := EquivalentMemberBack(a, b, j);
    }
  }

  /** On values JSON can say the text is injective: one text exactly for equivalent values. */
  lemma SayableExactly(a: Value, b: Value)
    requires WellFormed(a) && WellFormed(b) && Sayable(a) && Sayable(b)
    ensures Print(Norm(a)) == Print(Norm(b)) <==> Equivalent(a, b)
  {
    hide Print, Norm, Same, Equivalent;
    CanonicalExactly(a, b);
    SameIsEquivalent(a, b);
  }

  /** The collisions this leaves: NaN is the string "NaN", and undefined in an array is null. */
  lemma CollidingValues(s: seq<Value>, t: seq<Value>)
    ensures Norm(Odd(NAN)) == Norm(Str(OddText(NAN)))
    ensures Norm(Arr(s + [Undefined] + t)) == Norm(Arr(s + [Null] + t))
  {
    var x, y := s + [Undefined] + t, s + [Null] + t;
    forall i | 0 <= i < |x|
      ensures Norm(x[i]) == Norm(y[i])
    {
      assert i != |s| ==> x[i] == y[i];
    }
    assert NormItems(x, Arr(x)) == NormItems(y, Arr(y));
  }

  /** One object under two fields is refused, though nothing about it is circular. */
  lemma SharedObjectRefused(k: Text, l: Text)
    requires Less(k, l)
    ensures !NoRepeat(Ids(Obj(0, [Member(k, Obj(1, [])), Member(l, Obj(1, []))])))
  {
    var shared := Obj(1, []);
    var members := [Member(k, shared), Member(l, shared)];
    var whole := Obj(0, members);
    assert members[1..] == [Member(l, shared)] && members[1..][1..] == [];
    assert Sorted(members[1..]) == [Member(l, shared)];
    assert Sorted(members) == members;
    assert Ids(shared) == [1];
    assert IdsOfMembers(members, 1, whole) == IdsOfMembers(members, 0, whole) + [1] == [1];
    assert IdsOfMembers(members, 2, whole) == [1, 1];
    assert Ids(whole) == [0, 1, 1];
    assert [0, 1, 1][1] == [0, 1, 1][2];
  }
}
