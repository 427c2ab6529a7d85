/**
 * `compareVariables` of src/lib/common.ts: the deep equality with which the
 * extension finds its configuration object inside capacitor.config.ts.
 * Values are JavaScript values of the kinds `eval` of an object literal
 * yields: `undefined`, `null`, booleans, numbers (without NaN), strings,
 * arrays and plain objects, the latter with their own keys in key order.
 */
module JsonCompare {
  import opened Text

  datatype Json =
    | Undefined
    | Null
    | Bool(b: bool)
    | Num(n: real)
    | Str(s: string)
    | Arr(elems: seq<Json>)
    | Obj(members: seq<Member>)

  datatype Member = Member(key: string, value: Json)

  /** The `typeof` operator; `null`, arrays and objects are all "object". */
  function TypeOf(v: Json): string {
    match v
    case Undefined => "undefined"
    case Bool(_) => "boolean"
    case Num(_) => "number"
    case Str(_) => "string"
    case _ => "object"
  }

  predicate UniqueKeys(ms: seq<Member>) {
    forall i, j :: 0 <= i < j < |ms| ==> ms[i].key != ms[j].key
  }

  /** Property access on an object: the value of the member with that key, `undefined` if there is none. */
  function Lookup(ms: seq<Member>, k: string): (v: Json)
    ensures (forall i :: 0 <= i < |ms| ==> ms[i].key != k) ==> v == Undefined
    ensures UniqueKeys(ms) ==> forall i :: 0 <= i < |ms| && ms[i].key == k ==> v == ms[i].value
  {
    if ms == [] then Undefined
    else if ms[0].key == k then ms[0].value
    else
      var v := Lookup(ms[1..], k);
      assert forall i :: 1 <= i < |ms| ==> ms[i] == ms[1..][i - 1];
      v
  }

  /** `Object.keys(v)`: the indices of an array as strings, the keys of an object. */
  function Keys(v: Json): (ks: seq<string>)
    ensures v.Arr? ==> |ks| == |v.elems| && forall i :: 0 <= i < |ks| ==> ks[i] == NatToString(i)
    ensures v.Obj? ==> |ks| == |v.members| && forall i :: 0 <= i < |ks| ==> ks[i] == v.members[i].key
  {
    match v
    case Arr(elems) => seq(|elems|, i requires 0 <= i < |elems| => NatToString(i))
    case Obj(ms) => seq(|ms|, i requires 0 <= i < |ms| => ms[i].key)
    case _ => []
  }

  /** `v[key]` on an array or object; inherited properties other than an array's `length` are not modelled. */
  function Property(v: Json, key: string): Json {
    match v
    case Arr(elems) =>
      if key == "length" then Num(|elems| as real)
      else if IsCanonicalDecimal(key) && DecimalValue(key) < |elems| then elems[DecimalValue(key)]
      else Undefined
    case Obj(ms) => Lookup(ms, key)
    case _ => Undefined
  }

  /**
   * Each key `Object.keys` lists reads back its own element or member, and
   * an array's index keys are pairwise distinct: the keys the comparison
   * loops over address every entry exactly once.
   */
  lemma KeysReadBack(v: Json)
    ensures v.Arr? ==> forall i :: 0 <= i < |Keys(v)| ==> Property(v, Keys(v)[i]) == v.elems[i]
    ensures v.Arr? ==> forall i, j :: 0 <= i < j < |Keys(v)| ==> Keys(v)[i] != Keys(v)[j]
    ensures v.Obj? && UniqueKeys(v.members) ==>
      forall i :: 0 <= i < |Keys(v)| ==> Property(v, Keys(v)[i]) == v.members[i].value
  {
    if v.Arr? {
      forall i | 0 <= i < |Keys(v)| ensures Property(v, Keys(v)[i]) == v.elems[i] {
        ArrayIndexProperty(v.elems, i);
      }
      forall i, j | 0 <= i < j < |Keys(v)| ensures Keys(v)[i] != Keys(v)[j] {
        NatToStringRoundTrip(i);
        NatToStringRoundTrip(j);
      }
    }
  }

  /**
   * `compareVariables(a, b)`: false when the types differ; two arrays
   * compare element by element; other pairs of non-null objects compare
   * the values of `a`'s keys with the same keys of `b`, after checking that
   * both have as many keys; everything else falls back to `===`.
   */
  function Compare(a: Json, b: Json): (r: bool)
    ensures TypeOf(a) != TypeOf(b) ==> !r
    ensures a.Arr? && b.Arr? && |a.elems| != |b.elems| ==> !r
    ensures (a.Arr? || a.Obj?) && (b.Arr? || b.Obj?) && |Keys(a)| != |Keys(b)| ==> !r
    decreases a
  {
    if TypeOf(a) != TypeOf(b) then false
    else if a.Arr? && b.Arr? then
      |a.elems| == |b.elems| && forall i :: 0 <= i < |a.elems| ==> Compare(a.elems[i], b.elems[i])
    else if (a.Arr? || a.Obj?) && (b.Arr? || b.Obj?) then
      |Keys(a)| == |Keys(b)| &&
      if a.Arr? then forall i :: 0 <= i < |a.elems| ==> Compare(a.elems[i], Property(b, NatToString(i)))
      else forall i :: 0 <= i < |a.members| ==> Compare(a.members[i].value, Property(b, a.members[i].key))
    else a == b
  }

  /** Values whose objects have distinct keys, at every depth. */
  predicate WellFormed(v: Json) {
    match v
    case Arr(elems) => forall i :: 0 <= i < |elems| ==> WellFormed(elems[i])
    case Obj(ms) => UniqueKeys(ms) && forall i :: 0 <= i < |ms| ==> WellFormed(ms[i].value)
    case _ => true
  }

  /**
   * JSON-like values: well formed, no `undefined` anywhere, and no object
   * key "length", the one inherited property of an array that is modelled.
   */
  predicate Plain(v: Json) {
    match v
    case Undefined => false
    case Arr(elems) => forall i :: 0 <= i < |elems| ==> Plain(elems[i])
    case Obj(ms) =>
      UniqueKeys(ms) &&
      forall i :: 0 <= i < |ms| ==>
        Plain(ms[i].value) && ms[i].key != "length"
    case _ => true
  }

  /** The element of an array at an index string is the element at that index. */
  lemma ArrayIndexProperty(elems: seq<Json>, i: nat)
    requires i < |elems|
    ensures Property(Arr(elems), NatToString(i)) == elems[i]
  {
    NatToStringRoundTrip(i);
  }

  /** Every value compares equal to itself. */
  lemma {:induction false} CompareReflexive(a: Json)
    requires WellFormed(a)
    ensures Compare(a, a)
    decreases a
  {
    match a
    case Arr(elems) =>
      forall i | 0 <= i < |elems| ensures Compare(elems[i], elems[i]) {
        CompareReflexive(elems[i]);
      }
    case Obj(ms) =>
      forall i | 0 <= i < |ms| ensures Compare(ms[i].value, Property(a, ms[i].key)) {
        CompareReflexive(ms[i].value);
      }
    case _ =>
  }

  /** Comparisons do not depend on the order of an object's members. */
  lemma CompareIgnoresMemberOrder(p: seq<Member>, q: seq<Member>, x: Json)
    requires UniqueKeys(p) && UniqueKeys(q) && multiset(p) == multiset(q)
    ensures Compare(Obj(p), x) == Compare(Obj(q), x)
    ensures Compare(x, Obj(p)) == Compare(x, Obj(q))
  {
    SameMembers(p, q);
    forall k ensures Property(Obj(p), k) == Property(Obj(q), k) {
      LookupSameMembers(p, q, k);
    }
    CompareFirstReordered(p, q, x);
    CompareFirstReordered(q, p, x);
  }

  /** Equal multisets: the same length and the same members. */
  lemma SameMembers(p: seq<Member>, q: seq<Member>)
    requires multiset(p) == multiset(q)
    ensures |p| == |q|
    ensures forall m :: m in p <==> m in q
  {
    assert |p| == |multiset(p)| == |multiset(q)| == |q|;
    forall m ensures m in p <==> m in q {
      assert m in p <==> m in multiset(p);
      assert m in q <==> m in multiset(q);
    }
  }

  /** The object on the left is read member by member, in any order. */
  lemma CompareFirstReordered(p: seq<Member>, q: seq<Member>, x: Json)
    requires |p| == |q| && forall m :: m in p <==> m in q
    ensures Compare(Obj(p), x) ==> Compare(Obj(q), x)
  {
    if Compare(Obj(p), x) {
      forall j | 0 <= j < |q| ensures Compare(q[j].value, Property(x, q[j].key)) {
        assert q[j] in q;
        var i :| 0 <= i < |p| && p[i] == q[j];
      }
    }
  }

  /** Objects with the same members answer every key alike. */
  lemma LookupSameMembers(p: seq<Member>, q: seq<Member>, k: string)
    requires UniqueKeys(p) && UniqueKeys(q)
    requires forall m :: m in p <==> m in q
    ensures Lookup(p, k) == Lookup(q, k)
  {
    if i :| 0 <= i < |p| && p[i].key == k {
      assert p[i] in p;
      var j :| 0 <= j < |q| && q[j] == p[i];
    } else {
      forall j | 0 <= j < |q| ensures q[j].key != k {
        assert q[j] in q;
      }
    }
  }

  /** The set of an object's keys. */
  function KeySet(ms: seq<Member>): set<string> {
    set i | 0 <= i < |ms| :: ms[i].key
  }

  /** Distinct keys: as many keys as members. */
  lemma {:induction false} KeySetSize(ms: seq<Member>)
    requires UniqueKeys(ms)
    ensures |KeySet(ms)| == |ms|
  {
    if ms != [] {
      var rest := ms[1..];
      UniqueKeysTail(ms);
      KeySetSize(rest);
      KeySetCons(ms);
      HeadKeyFresh(ms);
    }
  }

  lemma UniqueKeysTail(ms: seq<Member>)
    requires ms != [] && UniqueKeys(ms)
    ensures UniqueKeys(ms[1..])
  {
    var rest := ms[1..];
    forall i, j | 0 <= i < j < |rest| ensures rest[i].key != rest[j].key {
      assert rest[i] == ms[i + 1] && rest[j] == ms[j + 1];
    }
  }

  lemma KeySetCons(ms: seq<Member>)
    requires ms != []
    ensures KeySet(ms) == {ms[0].key} + KeySet(ms[1..])
  {
    var rest := ms[1..];
    forall k ensures k in KeySet(ms) <==> k in {ms[0].key} + KeySet(rest) {
      if k in KeySet(ms) {
        var i :| 0 <= i < |ms| && ms[i].key == k;
        if i > 0 { assert rest[i - 1].key == k; }
      }
      if k in KeySet(rest) {
        var i :| 0 <= i < |rest| && rest[i].key == k;
        assert ms[i + 1].key == k;
      }
    }
  }

  lemma HeadKeyFresh(ms: seq<Member>)
    requires ms != [] && UniqueKeys(ms)
    ensures ms[0].key !in KeySet(ms[1..])
  {
    var rest := ms[1..];
    forall i | 0 <= i < |rest| ensures rest[i].key != ms[0].key {
      assert rest[i] == ms[i + 1];
    }
  }

  /** A subset of a finite set that is as large as the set is the whole set. */
  lemma {:induction false} SubsetOfSameSize<T>(s: set<T>, t: set<T>)
    requires s <= t && |s| == |t|
    ensures s == t
  {
    var d := t - s;
    assert t == s + d && s * d == {};
    assert |d| == 0;
    assert d == {};
  }

  /** Two objects with distinct keys and as many members, all of whose keys the second holds, hold the same keys. */
  lemma SameKeys(p: seq<Member>, q: seq<Member>)
    requires UniqueKeys(p) && UniqueKeys(q) && |p| == |q|
    requires forall i :: 0 <= i < |p| ==> p[i].key in KeySet(q)
    ensures KeySet(q) == KeySet(p)
  {
    KeySetSize(p);
    KeySetSize(q);
    SubsetOfSameSize(KeySet(p), KeySet(q));
  }

  /** A defined value never equals `undefined`. */
  lemma PlainNotUndefined(v: Json, w: Json)
    requires Plain(v) && w == Undefined
    ensures !Compare(v, w) && !Compare(w, v)
  {
  }

  /** The index keys of an array of length `n`: the canonical decimals below `n`. */
  function IndexKeys(n: nat): set<string> {
    set i | 0 <= i < n :: NatToString(i)
  }

  lemma {:induction false} IndexKeysFacts(n: nat)
    ensures |IndexKeys(n)| == n
    ensures forall k :: k in IndexKeys(n) <==> IsCanonicalDecimal(k) && DecimalValue(k) < n
  {
    forall k ensures k in IndexKeys(n) <==> IsCanonicalDecimal(k) && DecimalValue(k) < n {
      if k in IndexKeys(n) {
        var i :| 0 <= i < n && NatToString(i) == k;
        NatToStringRoundTrip(i);
      }
      if IsCanonicalDecimal(k) && DecimalValue(k) < n {
        CanonicalDecimalRoundTrip(k);
      }
    }
    if n > 0 {
      IndexKeysFacts(n - 1);
      assert IndexKeys(n) == IndexKeys(n - 1) + {NatToString(n - 1)};
      NatToStringRoundTrip(n - 1);
      assert NatToString(n - 1) !in IndexKeys(n - 1);
    }
  }

  /**
   * An array and an object compare equal, either way round, only when the
   * object's keys are exactly the array's indices; when its members compare
   * symmetrically with the elements, so do the two.
   */
  lemma CompareArrayObject(elems: seq<Json>, ms: seq<Member>)
    requires Plain(Arr(elems)) && Plain(Obj(ms))
    requires forall i, j :: 0 <= i < |elems| && 0 <= j < |ms| ==>
      Compare(elems[i], ms[j].value) == Compare(ms[j].value, elems[i])
    ensures Compare(Arr(elems), Obj(ms)) ==> KeySet(ms) == IndexKeys(|elems|)
    ensures Compare(Obj(ms), Arr(elems)) ==> KeySet(ms) == IndexKeys(|elems|)
    ensures Compare(Arr(elems), Obj(ms)) == Compare(Obj(ms), Arr(elems))
  {
    var n := |elems|;
    if |ms| == n {
      KeySetSize(ms);
      IndexKeysFacts(n);
      if Compare(Arr(elems), Obj(ms)) {
        ArrayObjectKeys(elems, ms);
        ArrayObjectConverse(elems, ms);
      }
      if Compare(Obj(ms), Arr(elems)) {
        ObjectArrayKeys(elems, ms);
        ObjectArrayConverse(elems, ms);
      }
    }
  }

  /** An object that an array equals holds every index key, and no other. */
  lemma ArrayObjectKeys(elems: seq<Json>, ms: seq<Member>)
    requires Plain(Arr(elems)) && Plain(Obj(ms)) && Compare(Arr(elems), Obj(ms))
    ensures KeySet(ms) == IndexKeys(|elems|)
  {
    var n := |elems|;
    KeySetSize(ms);
    IndexKeysFacts(n);
    assert forall i :: 0 <= i < n ==> Compare(elems[i], Lookup(ms, NatToString(i)));
    forall i | 0 <= i < n ensures NatToString(i) in KeySet(ms) {
      if NatToString(i) !in KeySet(ms) {
        PlainNotUndefined(elems[i], Lookup(ms, NatToString(i)));
      }
    }
    SubsetOfSameSize(IndexKeys(n), KeySet(ms));
  }

  /** An array that equals an object is equal to it the other way round. */
  lemma ArrayObjectConverse(elems: seq<Json>, ms: seq<Member>)
    requires Plain(Arr(elems)) && Plain(Obj(ms)) && Compare(Arr(elems), Obj(ms))
    requires KeySet(ms) == IndexKeys(|elems|)
    requires forall i, j :: 0 <= i < |elems| && 0 <= j < |ms| ==>
      Compare(elems[i], ms[j].value) == Compare(ms[j].value, elems[i])
    ensures Compare(Obj(ms), Arr(elems))
  {
    IndexKeysFacts(|elems|);
    forall j | 0 <= j < |ms| ensures Compare(ms[j].value, Property(Arr(elems), ms[j].key)) {
      var k := ms[j].key;
      assert k in KeySet(ms);
      var i := DecimalValue(k);
      CanonicalDecimalRoundTrip(k);
      assert Property(Arr(elems), k) == elems[i];
      assert Compare(elems[i], Property(Obj(ms), NatToString(i)));
    }
  }

  /** An object that equals an array holds only index keys, and all of them. */
  lemma ObjectArrayKeys(elems: seq<Json>, ms: seq<Member>)
    requires Plain(Arr(elems)) && Plain(Obj(ms)) && Compare(Obj(ms), Arr(elems))
    ensures KeySet(ms) == IndexKeys(|elems|)
  {
    var n := |elems|;
    KeySetSize(ms);
    IndexKeysFacts(n);
    forall k | k in KeySet(ms) ensures k in IndexKeys(n) {
      var j :| 0 <= j < |ms| && ms[j].key == k;
      assert Compare(ms[j].value, Property(Arr(elems), k));
      if !(IsCanonicalDecimal(k) && DecimalValue(k) < n) {
        PlainNotUndefined(ms[j].value, Property(Arr(elems), k));
      }
    }
    SubsetOfSameSize(KeySet(ms), IndexKeys(n));
  }

  /** An object that equals an array is equal to it the other way round. */
  lemma ObjectArrayConverse(elems: seq<Json>, ms: seq<Member>)
    requires Plain(Arr(elems)) && Plain(Obj(ms)) && Compare(Obj(ms), Arr(elems))
    requires KeySet(ms) == IndexKeys(|elems|)
    requires forall i, j :: 0 <= i < |elems| && 0 <= j < |ms| ==>
      Compare(elems[i], ms[j].value) == Compare(ms[j].value, elems[i])
    ensures Compare(Arr(elems), Obj(ms))
  {
    IndexKeysFacts(|elems|);
    forall i | 0 <= i < |elems| ensures Compare(elems[i], Property(Obj(ms), NatToString(i))) {
      assert NatToString(i) in IndexKeys(|elems|);
      var j :| 0 <= j < |ms| && ms[j].key == NatToString(i);
      NatToStringRoundTrip(i);
      assert Property(Arr(elems), ms[j].key) == elems[i];
      assert Compare(ms[j].value, Property(Arr(elems), ms[j].key));
    }
  }

  /**
   * On JSON-like values the comparison is symmetric.
   */
  lemma {:induction false} CompareSymmetric(a: Json, b: Json)
    requires Plain(a) && Plain(b)
    ensures Compare(a, b) == Compare(b, a)
    decreases a
  {
    if TypeOf(a) != TypeOf(b) {
    } else if a.Arr? && b.Arr? {
      forall i | 0 <= i < |a.elems| && i < |b.elems|
        ensures Compare(a.elems[i], b.elems[i]) == Compare(b.elems[i], a.elems[i])
      {
        CompareSymmetric(a.elems[i], b.elems[i]);
      }
    } else if a.Arr? && b.Obj? {
      forall i, j | 0 <= i < |a.elems| && 0 <= j < |b.members|
        ensures Compare(a.elems[i], b.members[j].value) == Compare(b.members[j].value, a.elems[i])
      {
        CompareSymmetric(a.elems[i], b.members[j].value);
      }
      CompareArrayObject(a.elems, b.members);
    } else if a.Obj? && b.Arr? {
      forall i, j | 0 <= i < |b.elems| && 0 <= j < |a.members|
        ensures Compare(b.elems[i], a.members[j].value) == Compare(a.members[j].value, b.elems[i])
      {
        CompareSymmetric(a.members[j].value, b.elems[i]);
      }
      CompareArrayObject(b.elems, a.members);
    } else if a.Obj? && b.Obj? {
      CompareObjectsSymmetric(a, b);
    }
  }

  /** The object case of `CompareSymmetric`. */
  lemma {:induction false} CompareObjectsSymmetric(a: Json, b: Json)
    requires a.Obj? && b.Obj? && Plain(a) && Plain(b)
    ensures Compare(a, b) == Compare(b, a)
    decreases a, 0
  {
    var p, q := a.members, b.members;
    forall i, j | 0 <= i < |p| && 0 <= j < |q| && p[i].key == q[j].key
      ensures Compare(p[i].value, q[j].value) == Compare(q[j].value, p[i].value)
    {
      CompareSymmetric(p[i].value, q[j].value);
    }
    if Compare(a, b) {
      CompareObjectsOneWay(p, q);
    }
    if Compare(b, a) {
      CompareObjectsOneWay(q, p);
    }
  }

  /**
   * When the members under equal keys compare symmetrically, equality of
   * two JSON-like objects carries over to the other order.
   */
  lemma CompareObjectsOneWay(p: seq<Member>, q: seq<Member>)
    requires Plain(Obj(p)) && Plain(Obj(q)) && Compare(Obj(p), Obj(q))
    requires forall i, j :: 0 <= i < |p| && 0 <= j < |q| && p[i].key == q[j].key ==>
      Compare(q[j].value, p[i].value) == Compare(p[i].value, q[j].value)
    ensures Compare(Obj(q), Obj(p))
  {
    forall i | 0 <= i < |p| ensures p[i].key in KeySet(q) {
      if p[i].key !in KeySet(q) {
        assert Lookup(q, p[i].key) == Undefined;
        PlainNotUndefined(p[i].value, Lookup(q, p[i].key));
      }
    }
    SameKeys(p, q);
    forall j | 0 <= j < |q| ensures Compare(q[j].value, Lookup(p, q[j].key)) {
      assert q[j].key in KeySet(p);
      var i :| 0 <= i < |p| && p[i].key == q[j].key;
      assert Compare(p[i].value, Lookup(q, p[i].key));
    }
  }

  /**
   * Without the "no length key" restriction symmetry fails:
   * `{length: 1}` equals `["z"]` but not the other way round.
   */
  lemma CompareAsymmetricExample()
    ensures var o := Obj([Member("length", Num(1.0))]);
      var arr := Arr([Str("z")]);
      Compare(o, arr) && !Compare(arr, o)
  {
    var o := Obj([Member("length", Num(1.0))]);
    var arr := Arr([Str("z")]);
    assert Property(arr, "length") == Num(1.0);
    NatToStringRoundTrip(0);
    assert NatToString(0) == "0";
    assert Property(o, "0") == Undefined;
    assert !Compare(Str("z"), Undefined);
  }
}
