/**
  The slice of JavaScript's value model the request adapter touches: the
  values a caller passes as `params`/`data`, truthiness, `typeof ... ===
  'object'`, string conversion, and plain objects as ordered property lists
  (for-in order) with the property write and `Object.assign` of the language.
 */
module JsValues {
  import opened Text

  datatype Option<T> = None | Some(value: T)

  /** A JavaScript value. `Obj` is a plain object whose own enumerable
      properties are listed in enumeration order. Numbers are integers. */
  datatype JsValue =
    | Undefined
    | Null
    | Bool(b: bool)
    | Num(n: int)
    | Str(s: string)
    | Obj(props: seq<Prop>)

  type Prop = (string, JsValue)

  /** `!!v`. */
  predicate Truthy(v: JsValue) {
    match v
    case Undefined => false
    case Null => false
    case Bool(b) => b
    case Num(n) => n != 0
    case Str(s) => s != ""
    case Obj(_) => true
  }

  /** `typeof v === 'object'` (true of `null` as well). */
  predicate IsObjectType(v: JsValue) {
    v.Null? || v.Obj?
  }

  /** `String(v)`, the string a replacement value is converted to. */
  function ToStr(v: JsValue): string {
    match v
    case Undefined => "undefined"
    case Null => "null"
    case Bool(b) => if b then "true" else "false"
    case Num(n) => IntToString(n)
    case Str(s) => s
    case Obj(_) => "[object Object]"
  }

  /** The keys bound in a property list. */
  function KeysOf(d: seq<Prop>): set<string> {
    set i | 0 <= i < |d| :: d[i].0
  }

  /** The keys of two concatenated lists are those of either. */
  lemma KeysOfConcat(a: seq<Prop>, b: seq<Prop>)
    ensures KeysOf(a + b) == KeysOf(a) + KeysOf(b)
  {
    var c := a + b;
    forall x | x in KeysOf(c) ensures x in KeysOf(a) + KeysOf(b) {
      var j :| 0 <= j < |c| && c[j].0 == x;
      if j < |a| { assert c[j] == a[j]; } else { assert c[j] == b[j - |a|]; }
    }
    forall x | x in KeysOf(a) + KeysOf(b) ensures x in KeysOf(c) {
      if x in KeysOf(a) {
        var j :| 0 <= j < |a| && a[j].0 == x;
        assert c[j] == a[j];
      } else {
        var j :| 0 <= j < |b| && b[j].0 == x;
        assert c[|a| + j] == b[j];
      }
    }
  }

  /** A list whose every property is a property of another binds no other key. */
  lemma MembersKeys(a: seq<Prop>, b: seq<Prop>)
    requires forall j :: 0 <= j < |a| ==> a[j] in b
    ensures KeysOf(a) <= KeysOf(b)
  {
    forall x | x in KeysOf(a) ensures x in KeysOf(b) {
      var j :| 0 <= j < |a| && a[j].0 == x;
      assert a[j] in b;
      var t :| 0 <= t < |b| && b[t] == a[j];
      assert b[t].0 == x;
    }
  }

  /** Every key is bound at most once, as in a JavaScript object. */
  predicate DistinctKeys(d: seq<Prop>) {
    forall i, j :: 0 <= i < j < |d| ==> d[i].0 != d[j].0
  }

  /** Property lookup: the value of the last binding of `k`. */
  function Lookup(d: seq<Prop>, k: string): (r: Option<JsValue>)
    ensures r.Some? <==> k in KeysOf(d)
    decreases |d|
  {
    if d == [] then None
    else if d[|d| - 1].0 == k then Some(d[|d| - 1].1)
    else
      assert KeysOf(d) == KeysOf(d[..|d| - 1]) + {d[|d| - 1].0};
      Lookup(d[..|d| - 1], k)
  }

  /** Rebinds every binding of `k` in place to `v`. */
  function Overwrite(d: seq<Prop>, k: string, v: JsValue): (r: seq<Prop>)
    ensures |r| == |d|
    decreases |d|
  {
    if d == [] then []
    else [if d[0].0 == k then (k, v) else d[0]] + Overwrite(d[1..], k, v)
  }

  /** `o[k] = v` on a plain object: an existing property keeps its place in
      the enumeration order and takes the new value, a new one is appended. */
  function SetProp(d: seq<Prop>, k: string, v: JsValue): seq<Prop> {
    if k in KeysOf(d) then Overwrite(d, k, v) else d + [(k, v)]
  }

  /** The own enumerable properties `Object.assign` copies from a source:
      those of an object, the indexed characters of a string, none otherwise. */
  function OwnProps(v: JsValue): seq<Prop> {
    match v
    case Obj(props) => props
    case Str(s) => seq(|s|, i requires 0 <= i < |s| => (NatToString(i), Str([s[i]])))
    case _ => []
  }

  /** `Object.assign(target, source)` on property lists: each source property,
      in order, is written into the target. */
  function Assign(target: seq<Prop>, source: seq<Prop>): seq<Prop>
    decreases |source|
  {
    if source == [] then target
    else SetProp(Assign(target, source[..|source| - 1]), source[|source| - 1].0, source[|source| - 1].1)
  }

  // ---------------------------------------------------------------------
  // Properties of the object operations

  lemma {:induction false} OverwriteKeepsKeys(d: seq<Prop>, k: string, v: JsValue)
    ensures |Overwrite(d, k, v)| == |d|
    ensures forall i :: 0 <= i < |d| ==> Overwrite(d, k, v)[i].0 == d[i].0
    ensures forall i :: 0 <= i < |d| ==>
      Overwrite(d, k, v)[i].1 == (if d[i].0 == k then v else d[i].1)
    decreases |d|
  {
    if d != [] {
      OverwriteKeepsKeys(d[1..], k, v);
    }
  }

  /** Rebinding an existing key `k` to `v` makes `k` look up to `v` and
      leaves the lookup of every other key as it was. */
  lemma {:induction false} LookupOverwrite(d: seq<Prop>, k: string, v: JsValue, k': string)
    requires k in KeysOf(d)
    ensures Lookup(Overwrite(d, k, v), k') == if k' == k then Some(v) else Lookup(d, k')
    decreases |d|
  {
    OverwriteKeepsKeys(d, k, v);
    var o := Overwrite(d, k, v);
    var n := |d| - 1;
    if d[n].0 == k {
      assert o[n] == (k, v);
      if k' != k {
        assert o[..n] == Overwrite(d[..n], k, v) by { OverwritePrefix(d, k, v, n); }
        LookupAfterOverwrite(o[..n], d[..n], k, v, k');
      }
    } else {
      assert KeysOf(d) == KeysOf(d[..n]) + {d[n].0};
      assert o[n] == d[n];
      OverwritePrefix(d, k, v, n);
      LookupOverwrite(d[..n], k, v, k');
    }
  }

  /** Overwriting commutes with taking a prefix. */
  lemma {:induction false} OverwritePrefix(d: seq<Prop>, k: string, v: JsValue, n: nat)
    requires n <= |d|
    ensures Overwrite(d, k, v)[..n] == Overwrite(d[..n], k, v)
  {
    OverwriteKeepsKeys(d, k, v);
    OverwriteKeepsKeys(d[..n], k, v);
  }

  /** Lookups of keys other than `k` agree between a list and its overwrite. */
  lemma {:induction false} LookupAfterOverwrite(o: seq<Prop>, d: seq<Prop>, k: string, v: JsValue, k': string)
    requires o == Overwrite(d, k, v)
    requires k' != k
    ensures Lookup(o, k') == Lookup(d, k')
    decreases |d|
  {
    OverwriteKeepsKeys(d, k, v);
    if d != [] {
      var n := |d| - 1;
      OverwritePrefix(d, k, v, n);
      LookupAfterOverwrite(o[..n], d[..n], k, v, k');
    }
  }

  /** A property write binds `k` to `v` and leaves every other key alone. */
  lemma LookupSetProp(d: seq<Prop>, k: string, v: JsValue, k': string)
    ensures Lookup(SetProp(d, k, v), k') == if k' == k then Some(v) else Lookup(d, k')
  {
    if k in KeysOf(d) {
      LookupOverwrite(d, k, v, k');
    } else {
      assert (d + [(k, v)])[..|d|] == d;
    }
  }

  /** A property write keeps the existing keys in their places and their
      order, and appends a new key at the end. */
  lemma SetPropKeepsOrder(d: seq<Prop>, k: string, v: JsValue)
    ensures |SetProp(d, k, v)| == if k in KeysOf(d) then |d| else |d| + 1
    ensures forall i :: 0 <= i < |d| ==> SetProp(d, k, v)[i].0 == d[i].0
    ensures KeysOf(SetProp(d, k, v)) == KeysOf(d) + {k}
  {
    if k in KeysOf(d) {
      OverwriteKeepsKeys(d, k, v);
      var o := Overwrite(d, k, v);
      assert forall i :: 0 <= i < |d| ==> o[i].0 == d[i].0;
      assert KeysOf(o) == KeysOf(d) by {
        forall x | x in KeysOf(d) ensures x in KeysOf(o) {
          var i :| 0 <= i < |d| && d[i].0 == x;
          assert o[i].0 == x;
        }
      }
    } else {
      var e := d + [(k, v)];
      assert e[|d|].0 == k;
      assert KeysOf(e) == KeysOf(d) + {k} by {
        forall x | x in KeysOf(e) ensures x in KeysOf(d) + {k} {
          var i :| 0 <= i < |e| && e[i].0 == x;
          if i < |d| { assert e[i] == d[i]; }
        }
        forall x | x in KeysOf(d) ensures x in KeysOf(e) {
          var i :| 0 <= i < |d| && d[i].0 == x;
          assert e[i] == d[i];
        }
      }
    }
  }

  /** A property write keeps an object's keys distinct. */
  lemma SetPropKeepsDistinct(d: seq<Prop>, k: string, v: JsValue)
    requires DistinctKeys(d)
    ensures DistinctKeys(SetProp(d, k, v))
  {
    SetPropKeepsOrder(d, k, v);
  }

  /** `Object.assign`: the source wins on every key it binds, the target's
      other keys keep their values, and no other key appears. */
  lemma {:induction false} AssignLookup(target: seq<Prop>, source: seq<Prop>, k: string)
    ensures Lookup(Assign(target, source), k) ==
      if k in KeysOf(source) then Lookup(source, k) else Lookup(target, k)
    decreases |source|
  {
    if source != [] {
      var n := |source| - 1;
      assert KeysOf(source) == KeysOf(source[..n]) + {source[n].0};
      AssignLookup(target, source[..n], k);
      LookupSetProp(Assign(target, source[..n]), source[n].0, source[n].1, k);
    }
  }

  /** `Object.assign` keeps the target's keys first, in their order, and its
      result binds exactly the keys of the target and of the source. */
  lemma {:induction false} AssignKeepsTargetOrder(target: seq<Prop>, source: seq<Prop>)
    ensures |target| <= |Assign(target, source)|
    ensures forall i :: 0 <= i < |target| ==> Assign(target, source)[i].0 == target[i].0
    ensures KeysOf(Assign(target, source)) == KeysOf(target) + KeysOf(source)
    decreases |source|
  {
    if source != [] {
      var n := |source| - 1;
      assert KeysOf(source) == KeysOf(source[..n]) + {source[n].0};
      AssignKeepsTargetOrder(target, source[..n]);
      SetPropKeepsOrder(Assign(target, source[..n]), source[n].0, source[n].1);
    }
  }

  /** `Object.assign` into an object yields an object: distinct keys. */
  lemma {:induction false} AssignKeepsDistinct(target: seq<Prop>, source: seq<Prop>)
    requires DistinctKeys(target)
    ensures DistinctKeys(Assign(target, source))
    decreases |source|
  {
    if source != [] {
      var n := |source| - 1;
      AssignKeepsDistinct(target, source[..n]);
      SetPropKeepsDistinct(Assign(target, source[..n]), source[n].0, source[n].1);
    }
  }
}
