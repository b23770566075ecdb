/**
  `mappingUrl` (lib/axios.js): substitutes `:key` placeholders of a URL
  template with parameter values and collects the parameters that matched no
  placeholder into a residual object.

  The parameters are walked in for-in order. For each key, the URL as it
  stands at that moment is searched for `:key`; on a hit every non-overlapping
  occurrence is replaced by the value's string form and the key is consumed,
  otherwise the key and its value are copied into the residual object. The
  search is by substring, so key `id` also matches inside `:idx`.
 */
module UrlMapping {
  import opened Text
  import opened JsValues

  /** The placeholder token `:key`. */
  function Placeholder(key: string): (pat: string)
    ensures |pat| == |key| + 1 && pat[0] == ':' && pat[1..] == key
  {
    ":" + key
  }

  /** A character with a special meaning in a regular expression source. */
  predicate IsRegexMeta(c: char) {
    c in "\\^$.|?*+()[]{}"
  }

  /** A key that `new RegExp(':' + key, 'g')` matches literally. */
  predicate LiteralKey(key: string) {
    forall i :: 0 <= i < |key| ==> !IsRegexMeta(key[i])
  }

  /** A value whose string form holds no `$`, so that `String.prototype.replace`
      inserts it verbatim instead of expanding a replacement pattern. */
  predicate VerbatimValue(v: JsValue) {
    v.Str? ==> '$' !in v.s
  }

  /** Parameters for which the regular-expression calls of `mappingUrl`
      behave as literal search and replace. */
  predicate LiteralParams(props: seq<Prop>) {
    forall i :: 0 <= i < |props| ==> LiteralKey(props[i].0) && VerbatimValue(props[i].1)
  }

  /** The state of the for-in loop: the URL as rewritten so far and the
      residual properties collected so far. */
  datatype Rewrite = Rewrite(url: string, residual: seq<Prop>)

  /** `:key` occurs in the URL as it stands before the key is processed. */
  predicate Matches(r: Rewrite, p: Prop) {
    Occurs(Placeholder(p.0), r.url)
  }

  /** The for-in loop of `mappingUrl` run over `props` in order, starting
      from the URL `url` and an empty residual object. A carried key is
      appended to the residual, which is the property write of the loop
      whenever the keys are distinct (`CarryIsPropertyWrite`). */
  function Substitute(url: string, props: seq<Prop>): Rewrite
    decreases |props|
  {
    if props == [] then Rewrite(url, [])
    else
      var before := Substitute(url, props[..|props| - 1]);
      var p := props[|props| - 1];
      if Matches(before, p) then Rewrite(ReplaceAll(before.url, Placeholder(p.0), ToStr(p.1)), before.residual)
      else Rewrite(before.url, before.residual + [p])
  }

  /** `mappingUrl` passes both arguments through when the URL is absent or
      empty, or when the parameters are falsy or not of type object. */
  predicate PassesThrough(url: Option<string>, params: JsValue) {
    url.None? || url.value == "" || !Truthy(params) || !IsObjectType(params)
  }

  /** `mappingUrl` as a function: the rewritten URL and the parameters it returns. */
  function MapUrl(url: Option<string>, params: JsValue): (Option<string>, JsValue) {
    if PassesThrough(url, params) then (url, params)
    else
      var r := Substitute(url.value, params.props);
      (Some(r.url), Obj(r.residual))
  }

  /** `mappingUrl(url, params)`. The parameters, when an object, bind each
      key once, as every JavaScript object does; the loop copies a carried key
      with a property write, which `CarryIsPropertyWrite` shows appends it. */
  method MappingUrl(url: Option<string>, params: JsValue) returns (url': Option<string>, params': JsValue)
    requires params.Obj? ==> LiteralParams(params.props)
    requires params.Obj? ==> DistinctKeys(params.props)
    ensures PassesThrough(url, params) ==> url' == url && params' == params
    ensures (url', params') == MapUrl(url, params)
  {
    if url.None? || url.value == "" || !Truthy(params) {
      return url, params;
    }
    if !IsObjectType(params) {
      return url, params;
    }
    var props := params.props;
    var u := url.value;
    var newParams: seq<Prop> := [];
    var i := 0;
    while i < |props|
      invariant 0 <= i <= |props|
      invariant Rewrite(u, newParams) == Substitute(url.value, props[..i])
    {
      var key := props[i].0;
      var pat := Placeholder(key);
      assert props[..i + 1][..i] == props[..i];
      if Occurs(pat, u) {
        u := ReplaceAll(u, pat, ToStr(props[i].1));
      } else {
        CarryIsPropertyWrite(url.value, props, i);
        newParams := SetProp(newParams, key, props[i].1);
      }
      i := i + 1;
    }
    assert props[..i] == props;
    return Some(u), Obj(newParams);
  }

  // ---------------------------------------------------------------------
  // Properties of the substitution

  /** Processing the keys of `a` and then those of `b` is processing `a + b`. */
  lemma {:induction false} SubstituteAppend(url: string, a: seq<Prop>, b: seq<Prop>)
    ensures Substitute(url, a + b) ==
      var mid := Substitute(url, a);
      var rest := Substitute(mid.url, b);
      Rewrite(rest.url, mid.residual + rest.residual)
    decreases |b|
  {
    if b == [] {
      assert a + b == a;
    } else {
      var n := |b| - 1;
      assert (a + b)[..|a + b| - 1] == a + b[..n];
      SubstituteAppend(url, a, b[..n]);
    }
  }

  /** The i-th key sees the URL as rewritten by the keys before it; on a
      match every occurrence of its placeholder is replaced and the residual
      is unchanged, otherwise the URL is unchanged and the key is carried. */
  lemma SubstituteStep(url: string, props: seq<Prop>, i: nat)
    requires i < |props|
    ensures var before := Substitute(url, props[..i]);
      Substitute(url, props[..i + 1]) ==
        if Occurs(Placeholder(props[i].0), before.url)
        then Rewrite(ReplaceAll(before.url, Placeholder(props[i].0), ToStr(props[i].1)), before.residual)
        else Rewrite(before.url, before.residual + [props[i]])
  {
    assert props[..i + 1][..i] == props[..i];
  }

  /** `a` is a subsequence of `b`: `b` with some entries left out. */
  predicate IsSubsequence(a: seq<Prop>, b: seq<Prop>)
    decreases |b|
  {
    if a == [] then true
    else if b == [] then false
    else if a[|a| - 1] == b[|b| - 1] then IsSubsequence(a[..|a| - 1], b[..|b| - 1])
    else IsSubsequence(a, b[..|b| - 1])
  }

  lemma {:induction false} SubsequenceMembers(a: seq<Prop>, b: seq<Prop>)
    requires IsSubsequence(a, b)
    ensures forall j :: 0 <= j < |a| ==> a[j] in b
    decreases |b|
  {
    if a != [] {
      var m := |b| - 1;
      if a[|a| - 1] == b[m] {
        SubsequenceMembers(a[..|a| - 1], b[..m]);
        assert a == a[..|a| - 1] + [b[m]];
      } else {
        SubsequenceMembers(a, b[..m]);
      }
    }
  }

  /** Appending to the larger sequence, or to both, keeps a subsequence. */
  lemma {:induction false} SubsequenceExtend(a: seq<Prop>, b: seq<Prop>, p: Prop)
    requires IsSubsequence(a, b)
    ensures IsSubsequence(a, b + [p]) && IsSubsequence(a + [p], b + [p])
    decreases |b|, 1
  {
    assert (b + [p])[..|b|] == b;
    assert (a + [p])[..|a|] == a;
    if a != [] && a[|a| - 1] == p {
      SubsequenceDropLast(a, b);
    }
  }

  /** Dropping the last entry of a subsequence keeps a subsequence. */
  lemma {:induction false} SubsequenceDropLast(a: seq<Prop>, b: seq<Prop>)
    requires a != [] && IsSubsequence(a, b)
    ensures IsSubsequence(a[..|a| - 1], b)
    decreases |b|, 0
  {
    var n, m := |a| - 1, |b| - 1;
    assert b == b[..m] + [b[m]];
    if a[n] == b[m] {
      SubsequenceExtend(a[..n], b[..m], b[m]);
    } else {
      SubsequenceDropLast(a, b[..m]);
      SubsequenceExtend(a[..n], b[..m], b[m]);
    }
  }

  /** The residual object lists input properties, key and value unchanged,
      in their input order. */
  lemma {:induction false} ResidualIsSubsequence(url: string, props: seq<Prop>)
    ensures IsSubsequence(Substitute(url, props).residual, props)
    ensures forall j :: 0 <= j < |Substitute(url, props).residual| ==>
      Substitute(url, props).residual[j] in props
    ensures KeysOf(Substitute(url, props).residual) <= KeysOf(props)
    decreases |props|
  {
    var r := Substitute(url, props).residual;
    if props != [] {
      var n := |props| - 1;
      ResidualIsSubsequence(url, props[..n]);
      assert props == props[..n] + [props[n]];
      var before := Substitute(url, props[..n]);
      SubsequenceExtend(before.residual, props[..n], props[n]);
    }
    SubsequenceMembers(r, props);
    MembersKeys(r, props);
  }

  /** In an object with distinct keys, the key at `i` is bound neither
      before nor after `i`. */
  lemma DistinctKeyIsolated(props: seq<Prop>, i: nat)
    requires DistinctKeys(props) && i < |props|
    ensures props[i].0 !in KeysOf(props[..i]) && props[i].0 !in KeysOf(props[i + 1..])
  {
    var k := props[i].0;
    forall j | 0 <= j < i ensures props[..i][j].0 != k {
      assert props[..i][j] == props[j];
    }
    var tail := props[i + 1..];
    forall j | 0 <= j < |tail| ensures tail[j].0 != k {
      assert tail[j] == props[i + 1 + j];
    }
  }

  /** A key is carried into the residual object exactly when its placeholder
      does not occur in the URL as rewritten by the keys processed before it. */
  lemma CarriedIff(url: string, props: seq<Prop>, i: nat)
    requires DistinctKeys(props)
    requires i < |props|
    ensures props[i].0 in KeysOf(Substitute(url, props).residual) <==>
      !Occurs(Placeholder(props[i].0), Substitute(url, props[..i]).url)
  {
    var k := props[i].0;
    var head, tail := props[..i + 1], props[i + 1..];
    assert props == head + tail;
    SubstituteAppend(url, head, tail);
    SubstituteStep(url, props, i);
    var before := Substitute(url, props[..i]);
    var mid := Substitute(url, head);
    var rest := Substitute(mid.url, tail);
    assert Substitute(url, props).residual == mid.residual + rest.residual;
    ResidualIsSubsequence(url, props[..i]);
    ResidualIsSubsequence(mid.url, tail);
    DistinctKeyIsolated(props, i);
    KeysOfConcat(mid.residual, rest.residual);
    assert k !in KeysOf(rest.residual);
    if Occurs(Placeholder(k), before.url) {
      assert mid.residual == before.residual;
      assert k !in KeysOf(mid.residual);
    } else {
      assert mid.residual == before.residual + [props[i]];
      KeysOfConcat(before.residual, [props[i]]);
      assert [props[i]][0].0 == k;
      assert k in KeysOf(mid.residual);
    }
  }

  /** Copying a carried key into the residual object (`newParams[key] = ...`)
      is a property write that appends it: an object's keys are distinct, so
      the residual built from the keys before it does not bind it yet. */
  lemma CarryIsPropertyWrite(url: string, props: seq<Prop>, i: nat)
    requires DistinctKeys(props) && i < |props|
    ensures var residual := Substitute(url, props[..i]).residual;
      SetProp(residual, props[i].0, props[i].1) == residual + [props[i]]
  {
    ResidualIsSubsequence(url, props[..i]);
    DistinctKeyIsolated(props, i);
  }

  /** When no key's placeholder occurs in the URL, the URL comes back
      unchanged and the residual object is the whole input. */
  lemma {:induction false} NoPlaceholderNoChange(url: string, props: seq<Prop>)
    requires forall i :: 0 <= i < |props| ==> !Occurs(Placeholder(props[i].0), url)
    ensures Substitute(url, props) == Rewrite(url, props)
    decreases |props|
  {
    if props != [] {
      var n := |props| - 1;
      NoPlaceholderNoChange(url, props[..n]);
      assert props == props[..n] + [props[n]];
    }
  }

  // ---------------------------------------------------------------------
  // Worked cases

  /** A string without the pattern's first character holds no occurrence. */
  lemma {:induction false} AbsentLeadNoOccurrence(pat: string, s: string)
    requires |pat| > 0 && pat[0] !in s
    ensures !Occurs(pat, s)
    decreases |s|
  {
    if |s| > 0 {
      assert s[0] in s;
      assert s[1..] <= s[1..];
      assert forall c :: c in s[1..] ==> c in s;
      AbsentLeadNoOccurrence(pat, s[1..]);
    }
  }

  /** A prefix without the pattern's first character holds no match start. */
  lemma {:induction false} AbsentLeadNoMatchBefore(pat: string, s: string, i: nat)
    requires |pat| > 0 && i <= |s| && pat[0] !in s[..i]
    ensures NoMatchBefore(pat, s, i)
    decreases i
  {
    if i > 0 {
      assert s[..i][0] == s[0];
      assert s[1..][..i - 1] == s[..i][1..];
      assert forall c :: c in s[1..][..i - 1] ==> c in s[..i];
      AbsentLeadNoMatchBefore(pat, s[1..], i - 1);
    }
  }

  /** When the text before the first placeholder holds no `:`, the
      placeholder is found and the scan replaces it and resumes after it. */
  lemma ReplaceAfterPlainPrefix(x: string, pat: string, y: string, rep: string)
    requires |pat| > 0 && pat[0] !in x
    ensures Occurs(pat, x + pat + y)
    ensures ReplaceAll(x + pat + y, pat, rep) == x + rep + ReplaceAll(y, pat, rep)
  {
    var s := x + pat + y;
    assert s[|x|..] == pat + y && StartsWith(s[|x|..], pat);
    assert s[..|x|] == x;
    AbsentLeadNoMatchBefore(pat, s, |x|);
    ReplaceAtFirstMatch(s, pat, rep, |x|);
    assert s[|x| + |pat|..] == y;
    assert s[|x|..|x| + |pat|] == pat;
    assert OccursAt(pat, s, |x|);
    OccursIffSomeIndex(pat, s);
  }

  /** Order matters: a value substituted early can create the placeholder of
      a later key. With `a` first, `/:a` becomes `/:b` and then `/x`. */
  lemma EarlierValueCreatesPlaceholder()
    ensures Substitute("/:a", [("a", Str(":b")), ("b", Str("x"))]) == Rewrite("/x", [])
  {
    var props := [("a", Str(":b")), ("b", Str("x"))];
    var first := Substitute("/:a", props[..1]);
    assert first == Rewrite("/:b", []) by {
      assert props[..1][..0] == [];
      assert Placeholder("a") == ":a";
      ReplaceAfterPlainPrefix("/", ":a", "", ":b");
      assert ReplaceAll("", ":a", ":b") == "";
      assert "/" + ":a" + "" == "/:a";
      SubstituteStep("/:a", props, 0);
    }
    assert Matches(first, props[1]) && ReplaceAll("/:b", ":b", "x") == "/x" by {
      assert Placeholder("b") == ":b";
      ReplaceAfterPlainPrefix("/", ":b", "", "x");
      assert ReplaceAll("", ":b", "x") == "";
      assert "/" + ":b" + "" == "/:b";
    }
    assert props[..2] == props;
    SubstituteStep("/:a", props, 1);
  }

  /** With `b` first, `b` finds no `:b` and is carried, and the `:b` that
      `a` then produces is left in the URL. */
  lemma LaterValueLeavesPlaceholder()
    ensures Substitute("/:a", [("b", Str("x")), ("a", Str(":b"))]) == Rewrite("/:b", [("b", Str("x"))])
  {
    var props := [("b", Str("x")), ("a", Str(":b"))];
    var first := Substitute("/:a", props[..1]);
    assert first == Rewrite("/:a", [("b", Str("x"))]) by {
      assert props[..1][..0] == [];
      assert Placeholder("b") == ":b";
      assert !Occurs(":b", "/:a") by {
        assert "/:a"[1..] == ":a" && ":a"[1..] == "a";
        assert "/:a"[..2] != ":b";
        assert ":a"[..2] == ":a" && ":a"[1] != ":b"[1];
        AbsentLeadNoOccurrence(":b", "a");
      }
      SubstituteStep("/:a", props, 0);
    }
    assert Matches(first, props[1]) && ReplaceAll("/:a", ":a", ":b") == "/:b" by {
      assert Placeholder("a") == ":a";
      ReplaceAfterPlainPrefix("/", ":a", "", ":b");
      assert ReplaceAll("", ":a", ":b") == "";
      assert "/" + ":a" + "" == "/:a";
    }
    assert props[..2] == props;
    SubstituteStep("/:a", props, 1);
  }

  /** Matching is by substring: key `id` is consumed by the longer token `:idx`. */
  lemma SubstringPlaceholderMatch()
    ensures Substitute("/:idx", [("id", Num(1))]) == Rewrite("/1x", [])
  {
    var props := [("id", Num(1))];
    assert props[..0] == [];
    assert Placeholder("id") == ":id";
    assert ToStr(Num(1)) == "1" by { assert NatToString(1) == [DigitChar(1)]; }
    ReplaceAfterPlainPrefix("/", ":id", "x", "1");
    assert ReplaceAll("x", ":id", "1") == "x";
    assert "/" + ":id" + "x" == "/:idx";
    assert "/" + "1" + "x" == "/1x";
  }
  /** A URL ending in the first key's placeholder, with no other `:` before
      it: the first key is consumed and the second, whose placeholder the
      rewritten URL cannot hold, is carried. */
  lemma PlaceholderThenUnmatchedKey(x: string, k: string, v: JsValue, k2: string, w: JsValue)
    requires ':' !in x && ':' !in ToStr(v)
    ensures Substitute(x + Placeholder(k), [(k, v), (k2, w)]) == Rewrite(x + ToStr(v), [(k2, w)])
  {
    var url := x + Placeholder(k);
    var props := [(k, v), (k2, w)];
    var first := Substitute(url, props[..1]);
    assert first == Rewrite(x + ToStr(v), []) by {
      assert props[..1][..0] == [];
      ReplaceAfterPlainPrefix(x, Placeholder(k), "", ToStr(v));
      assert ReplaceAll("", Placeholder(k), ToStr(v)) == "";
      assert x + Placeholder(k) + "" == url;
      assert x + ToStr(v) + "" == x + ToStr(v);
      SubstituteStep(url, props, 0);
    }
    assert !Matches(first, props[1]) by {
      assert forall c :: c in x + ToStr(v) ==> c in x || c in ToStr(v);
      AbsentLeadNoOccurrence(Placeholder(k2), x + ToStr(v));
    }
    assert props[..2] == props;
    SubstituteStep(url, props, 1);
    assert [] + [props[1]] == [(k2, w)];
  }

  /** `/users/:id` with `{id: 7, active: true}` gives `/users/7` and `{active: true}`. */
  lemma UsersExample()
    ensures Substitute("/users/:id", [("id", Num(7)), ("active", Bool(true))])
      == Rewrite("/users/7", [("active", Bool(true))])
  {
    assert ToStr(Num(7)) == "7" by { assert NatToString(7) == [DigitChar(7)]; }
    assert "/users/" + Placeholder("id") == "/users/:id";
    PlaceholderThenUnmatchedKey("/users/", "id", Num(7), "active", Bool(true));
  }
}
