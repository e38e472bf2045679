/**
 Exactly when the subset matcher composes: what `c` asks of `b`, and `b` of `a`, `c`
 then finds in `a`.
 */
module EvalTransitivity {
  import opened EvalMatcher
  import opened EvalMatching

  /** Every "$absent" list in the value is empty: nothing is forbidden anywhere. */
  ghost predicate NothingForbidden(v: Json) {
    match v
    case JObj(fields) => forall i :: 0 <= i < |fields| ==>
      if fields[i].key == ABSENT then fields[i].value == JList([]) else NothingForbidden(fields[i].value)
    case JList(items) => forall i :: 0 <= i < |items| ==> NothingForbidden(items[i])
    case _ => true
  }

  lemma Compose(f: seq<nat>, g: seq<nat>, h: seq<nat>, bound: nat)
    requires Increasing(f, bound) && Increasing(g, |f|)
    requires |h| == |g| && forall i :: 0 <= i < |g| ==> h[i] == f[g[i]]
    ensures Increasing(h, bound)
  {
  }

  /** Matching composes when the last expectation forbids nothing. */
  lemma {:induction false} MatchesTransitive(a: Json, b: Json, c: Json, p: Place)
    requires Matches(a, b, p) && Matches(b, c, p) && NothingForbidden(c)
    ensures Matches(a, c, p)
    decreases c
  {
    if p == TraceEvents || c.JList? {
      ListTransitive(a, b, c);
    } else if c.JObj? {
      forall i | 0 <= i < |c.fields|
        ensures FieldMatches(a.fields, c.fields[i], p)
      {
        assert FieldMatches(b.fields, c.fields[i], p);
        var key := c.fields[i].key;
        if key != ABSENT {
          var j :| 0 <= j < |b.fields| && b.fields[j] == Field(key, Get(b.fields, key));
          assert FieldMatches(a.fields, b.fields[j], p);
          MatchesTransitive(Get(a.fields, key), Get(b.fields, key), c.fields[i].value, Child(p, key));
        }
      }
    }
  }

  lemma {:induction false} ListTransitive(a: Json, b: Json, c: Json)
    requires a.JList? && b.JList? && c.JList? && NothingForbidden(c)
    requires Embeddable(a.items, b)
    requires Embeddable(b.items, c)
    ensures Embeddable(a.items, c)
    decreases c, 0
  {
    var f := EmbeddingOf(a.items, b);
    var g := EmbeddingOf(b.items, c);
    var h: seq<nat> := seq(|g|, i requires 0 <= i < |g| => f[g[i]]);
    Compose(f, g, h, |a.items|);
    forall i | 0 <= i < |c.items|
      ensures Matches(a.items[h[i]], c.items[i], Inside)
    {
      MatchesTransitive(a.items[f[g[i]]], b.items[g[i]], c.items[i], Inside);
    }
    assert Embeds(a.items, c, |c.items|, h);
  }

  // ---------------------------------------------------------------- what can be matched at all

  /** No object both asks for a key and forbids it, every "$absent" value is a list of texts, and trace events are objects. */
  ghost predicate Matchable(c: Json, p: Place)
    decreases c, 0
  {
    if p == TraceEvents then
      c.JList? && AllObjects(c.items) && forall i :: 0 <= i < |c.items| ==> Matchable(c.items[i], Inside)
    else match c
      case JObj(fields) => forall i :: 0 <= i < |fields| ==> FieldMatchable(fields, fields[i], p)
      case JList(items) => forall i :: 0 <= i < |items| ==> Matchable(items[i], Inside)
      case _ => true
  }

  /** The object asks for this key. */
  ghost predicate Asks(fields: seq<Field>, key: string) {
    key != ABSENT && HasKey(fields, key)
  }

  ghost predicate FieldMatchable(fields: seq<Field>, field: Field, p: Place)
    decreases field.value, 1
  {
    if field.key == ABSENT then
      field.value.JList? && forall v :: v in field.value.items ==> v.JStr? && !Asks(fields, v.s)
    else Matchable(field.value, Child(p, field.key))
  }

  lemma {:induction false} MatchedIsMatchable(b: Json, c: Json, p: Place)
    requires Matches(b, c, p)
    ensures Matchable(c, p)
    decreases c
  {
    if p == TraceEvents || c.JList? {
      var f := EmbeddingOf(b.items, c);
      forall i | 0 <= i < |c.items| ensures Matchable(c.items[i], Inside) {
        MatchedIsMatchable(b.items[f[i]], c.items[i], Inside);
      }
    } else if c.JObj? {
      forall i | 0 <= i < |c.fields| ensures FieldMatchable(c.fields, c.fields[i], p) {
        assert FieldMatches(b.fields, c.fields[i], p);
        if c.fields[i].key == ABSENT {
          ForbiddenIsNotAsked(b, c, p, c.fields[i].value);
        } else {
          MatchedIsMatchable(Get(b.fields, c.fields[i].key), c.fields[i].value, Child(p, c.fields[i].key));
        }
      }
    }
  }

  lemma AskedIsPresent(b: Json, c: Json, p: Place, key: string)
    requires p != TraceEvents && c.JObj? && Matches(b, c, p)
    ensures Asks(c.fields, key) ==> HasKey(b.fields, key)
  {
    if Asks(c.fields, key) {
      var j :| 0 <= j < |c.fields| && c.fields[j].key == key;
      assert FieldMatches(b.fields, c.fields[j], p);
    }
  }

  lemma ForbiddenIsNotAsked(b: Json, c: Json, p: Place, spec: Json)
    requires p != TraceEvents && c.JObj? && Matches(b, c, p) && AbsentHolds(b.fields, spec)
    ensures forall v :: v in spec.items ==> v.JStr? && !Asks(c.fields, v.s)
  {
    forall v | v in spec.items ensures !Asks(c.fields, v.s) { AskedIsPresent(b, c, p, v.s); }
  }

  // ---------------------------------------------------------------- the expectation without its "$absent" keys

  /** The fields other than "$absent", with these values. */
  function Keep(fields: seq<Field>, values: seq<Json>): seq<Field>
    requires |values| == |fields|
  {
    if fields == [] then []
    else
      var n := |fields| - 1;
      Keep(fields[..n], values[..n]) + if fields[n].key == ABSENT then [] else [Field(fields[n].key, values[n])]
  }

  function Strip(v: Json): Json {
    match v
    case JObj(fields) => JObj(Keep(fields, seq(|fields|, i requires 0 <= i < |fields| => Strip(fields[i].value))))
    case JList(items) => JList(seq(|items|, i requires 0 <= i < |items| => Strip(items[i])))
    case _ => v
  }

  lemma {:induction false} KeepMembers(fields: seq<Field>, values: seq<Json>, f: Field)
    requires |values| == |fields|
    ensures f in Keep(fields, values) <==>
      exists i :: 0 <= i < |fields| && fields[i].key != ABSENT && f == Field(fields[i].key, values[i])
    decreases |fields|
  {
    if fields == [] {
    } else {
      var n := |fields| - 1;
      KeepMembers(fields[..n], values[..n], f);
    }
  }

  lemma {:induction false} KeepUnique(fields: seq<Field>, values: seq<Json>)
    requires |values| == |fields| && UniqueKeys(fields)
    ensures UniqueKeys(Keep(fields, values))
    decreases |fields|
  {
    if fields == [] {
    } else {
      var n := |fields| - 1;
      var init := Keep(fields[..n], values[..n]);
      KeepUnique(fields[..n], values[..n]);
      forall j | 0 <= j < |init| ensures init[j].key != fields[n].key {
        assert init[j] in init;
        KeepMembers(fields[..n], values[..n], init[j]);
      }
    }
  }

  lemma MemberKey(fields: seq<Field>, f: Field)
    requires f in fields
    ensures HasKey(fields, f.key)
  {
  }

  lemma KeepGet(fields: seq<Field>, values: seq<Json>, i: nat)
    requires |values| == |fields| && UniqueKeys(fields) && i < |fields| && fields[i].key != ABSENT
    ensures HasKey(Keep(fields, values), fields[i].key) && Get(Keep(fields, values), fields[i].key) == values[i]
  {
    var kept, f := Keep(fields, values), Field(fields[i].key, values[i]);
    KeepMembers(fields, values, f);
    KeepUnique(fields, values);
    var j :| 0 <= j < |kept| && kept[j] == f;
    GetOwn(kept, j);
  }

  lemma KeepHas(fields: seq<Field>, values: seq<Json>, key: string)
    requires |values| == |fields|
    ensures HasKey(Keep(fields, values), key) <==> Asks(fields, key)
  {
    var kept := Keep(fields, values);
    if HasKey(kept, key) {
      var j :| 0 <= j < |kept| && kept[j].key == key;
      KeepMembers(fields, values, kept[j]);
    }
    if Asks(fields, key) {
      var i :| 0 <= i < |fields| && fields[i].key == key;
      KeepMembers(fields, values, Field(key, values[i]));
      MemberKey(kept, Field(key, values[i]));
    }
  }

  ghost predicate FieldsMatchable(fields: seq<Field>, p: Place) {
    forall i :: 0 <= i < |fields| ==> FieldMatchable(fields, fields[i], p)
  }

  /** Values that match the asked fields make an object that matches the expectation. */
  lemma KeptMatches(fields: seq<Field>, values: seq<Json>, p: Place)
    requires |values| == |fields| && UniqueKeys(fields) && FieldsMatchable(fields, p)
    requires forall i :: 0 <= i < |fields| && fields[i].key != ABSENT ==> Matches(values[i], fields[i].value, Child(p, fields[i].key))
    ensures forall i :: 0 <= i < |fields| ==> FieldMatches(Keep(fields, values), fields[i], p)
  {
    forall i | 0 <= i < |fields| ensures FieldMatches(Keep(fields, values), fields[i], p) {
      if fields[i].key == ABSENT {
        forall v | v in fields[i].value.items ensures v.JStr? && !HasKey(Keep(fields, values), v.s) {
          assert FieldMatchable(fields, fields[i], p);
          KeepHas(fields, values, v.s);
        }
      } else {
        KeepGet(fields, values, i);
      }
    }
  }

  /** Matching values of the same fields make matching objects. */
  lemma KeptMatchesKept(fields: seq<Field>, va: seq<Json>, vb: seq<Json>, p: Place)
    requires |va| == |vb| == |fields| && UniqueKeys(fields) && p != TraceEvents
    requires forall i :: 0 <= i < |fields| && fields[i].key != ABSENT ==> Matches(va[i], vb[i], Child(p, fields[i].key))
    ensures Matches(JObj(Keep(fields, va)), JObj(Keep(fields, vb)), p)
  {
    var a, b := Keep(fields, va), Keep(fields, vb);
    forall j | 0 <= j < |b| ensures FieldMatches(a, b[j], p) {
      assert b[j] in b;
      KeepMembers(fields, vb, b[j]);
      var i :| 0 <= i < |fields| && fields[i].key != ABSENT && b[j] == Field(fields[i].key, vb[i]);
      KeepGet(fields, va, i);
    }
  }

  lemma ItemsMatch(a: Json, e: Json)
    requires a.JList? && e.JList? && |a.items| == |e.items|
    requires forall i :: 0 <= i < |e.items| ==> Matches(a.items[i], e.items[i], Inside)
    ensures Embeddable(a.items, e)
  {
    assert Embeds(a.items, e, |e.items|, Identity(|e.items|));
  }

  /** Between lists of one length the only embedding is item by item. */
  lemma EmbeddingIsItemwise(a: Json, e: Json, i: nat)
    requires a.JList? && e.JList? && |a.items| == |e.items| && i < |e.items|
    ensures Embeddable(a.items, e) ==> Matches(a.items[i], e.items[i], Inside)
  {
    if Embeddable(a.items, e) {
      var f := EmbeddingOf(a.items, e);
      SelfEmbeddingIsIdentity(f, |e.items|, i);
    }
  }

  lemma ListMatchIsEmbedding(a: Json, c: Json, p: Place)
    requires c.JList?
    ensures Matches(a, c, p) ==> a.JList? && Embeddable(a.items, c)
    ensures a.JList? && Embeddable(a.items, c) && AllObjects(c.items) ==> Matches(a, c, p)
    ensures a.JList? && Embeddable(a.items, c) && p != TraceEvents ==> Matches(a, c, p)
  {
  }

  lemma StripItems(c: Json)
    requires c.JList?
    ensures Strip(c).JList? && |Strip(c).items| == |c.items|
    ensures forall i :: 0 <= i < |c.items| ==> Strip(c).items[i] == Strip(c.items[i])
    ensures AllObjects(c.items) ==> AllObjects(Strip(c).items)
  {
  }

  function StripValues(fields: seq<Field>): (values: seq<Json>)
    ensures |values| == |fields| && forall i :: 0 <= i < |fields| ==> values[i] == Strip(fields[i].value)
  {
    seq(|fields|, i requires 0 <= i < |fields| => Strip(fields[i].value))
  }

  lemma StripFields(c: Json)
    requires c.JObj?
    ensures Strip(c) == JObj(Keep(c.fields, StripValues(c.fields)))
  {
  }

  lemma AskedIsMatchable(c: Json, p: Place, i: nat)
    requires c.JObj? && p != TraceEvents && Matchable(c, p) && i < |c.fields| && c.fields[i].key != ABSENT
    ensures Matchable(c.fields[i].value, Child(p, c.fields[i].key))
  {
    assert FieldMatchable(c.fields, c.fields[i], p);
  }

  lemma ItemsMatchable(c: Json, p: Place)
    requires c.JList? && Matchable(c, p)
    ensures forall i :: 0 <= i < |c.items| ==> Matchable(c.items[i], Inside)
    ensures p == TraceEvents ==> AllObjects(c.items)
  {
  }

  /** Without its "$absent" keys a matchable expectation is a value that matches it. */
  lemma {:induction false} StripMatches(c: Json, p: Place)
    requires IsValue(c) && Matchable(c, p)
    ensures Matches(Strip(c), c, p)
    decreases c
  {
    if c.JList? {
      StripItems(c);
      ItemsMatchable(c, p);
      forall i | 0 <= i < |c.items| ensures Matches(Strip(c).items[i], c.items[i], Inside) {
        StripMatches(c.items[i], Inside);
      }
      ItemsMatch(Strip(c), c);
      ListMatchIsEmbedding(Strip(c), c, p);
    } else if c.JObj? {
      forall i | 0 <= i < |c.fields| && c.fields[i].key != ABSENT
        ensures Matches(StripValues(c.fields)[i], c.fields[i].value, Child(p, c.fields[i].key))
      {
        AskedIsMatchable(c, p, i);
        StripMatches(c.fields[i].value, Child(p, c.fields[i].key));
      }
      StripFields(c);
      KeptMatches(c.fields, StripValues(c.fields), p);
    }
  }

  /** It also matches itself. */
  lemma {:induction false} StripMatchesItself(c: Json, p: Place)
    requires IsValue(c) && Matchable(c, p)
    ensures Matches(Strip(c), Strip(c), p)
    decreases c, 1
  {
    if c.JList? {
      StripListItself(c, p);
    } else if c.JObj? {
      StripObjectItself(c, p);
    }
  }

  lemma {:induction false} StripListItself(c: Json, p: Place)
    requires c.JList? && IsValue(c) && Matchable(c, p)
    ensures Matches(Strip(c), Strip(c), p)
    decreases c, 0
  {
    StripItems(c);
    ItemsMatchable(c, p);
    forall i | 0 <= i < |c.items| ensures Matches(Strip(c).items[i], Strip(c).items[i], Inside) {
      StripMatchesItself(c.items[i], Inside);
    }
    ItemsMatch(Strip(c), Strip(c));
    ListMatchIsEmbedding(Strip(c), Strip(c), p);
  }

  lemma {:induction false} StripObjectItself(c: Json, p: Place)
    requires c.JObj? && IsValue(c) && Matchable(c, p)
    ensures Matches(Strip(c), Strip(c), p)
    decreases c, 0
  {
    var values := StripValues(c.fields);
    forall i | 0 <= i < |c.fields| && c.fields[i].key != ABSENT
      ensures Matches(values[i], values[i], Child(p, c.fields[i].key))
    {
      AskedIsMatchable(c, p, i);
      StripMatchesItself(c.fields[i].value, Child(p, c.fields[i].key));
    }
    StripFields(c);
    KeptMatchesKept(c.fields, values, values, p);
  }

  lemma KeptIsValue(fields: seq<Field>, values: seq<Json>)
    requires |values| == |fields| && UniqueKeys(fields) && forall i :: 0 <= i < |values| ==> IsValue(values[i])
    ensures IsValue(JObj(Keep(fields, values)))
  {
    var kept := Keep(fields, values);
    KeepUnique(fields, values);
    forall j | 0 <= j < |kept| ensures IsValue(kept[j].value) {
      assert kept[j] in kept;
      KeepMembers(fields, values, kept[j]);
    }
  }

  lemma {:induction false} StripIsValue(c: Json)
    requires IsValue(c)
    ensures IsValue(Strip(c))
    decreases c
  {
    if c.JList? {
      forall i | 0 <= i < |c.items| { StripIsValue(c.items[i]); }
    } else if c.JObj? {
      var values := StripValues(c.fields);
      forall i | 0 <= i < |c.fields| ensures IsValue(values[i]) { StripIsValue(c.fields[i].value); }
      StripFields(c);
      KeptIsValue(c.fields, values);
    }
  }

  // ---------------------------------------------------------------- one forbidden key breaks it

  /** `a` meets what is asked by `c` without its "$absent" keys, and not `c`. */
  ghost predicate Breaks(a: Json, c: Json, p: Place) {
    IsValue(a) && Matches(a, Strip(c), p) && !Matches(a, c, p)
  }

  lemma GetAppend(fields: seq<Field>, f: Field, key: string)
    requires HasKey(fields, key)
    ensures HasKey(fields + [f], key) && Get(fields + [f], key) == Get(fields, key)
    decreases |fields|
  {
    var more := fields + [f];
    assert more[IndexOf(fields, key)].key == key;
    SameIndex(fields, f, key);
  }

  lemma {:induction false} SameIndex(fields: seq<Field>, f: Field, key: string)
    requires HasKey(fields, key) && HasKey(fields + [f], key)
    ensures IndexOf(fields + [f], key) == IndexOf(fields, key)
    decreases |fields|
  {
    if fields[0].key == key {
    } else {
      assert (fields + [f])[1..] == fields[1..] + [f];
      var i :| 0 <= i < |fields| && fields[i].key == key;
      assert fields[1..][i - 1].key == key;
      assert (fields[1..] + [f])[i - 1].key == key;
      SameIndex(fields[1..], f, key);
    }
  }

  lemma AppendedStillMatches(a: seq<Field>, f: Field, e: seq<Field>, p: Place)
    requires p != TraceEvents && Matches(JObj(a), JObj(e), p) && forall i :: 0 <= i < |e| ==> e[i].key != ABSENT
    ensures Matches(JObj(a + [f]), JObj(e), p)
  {
    forall i | 0 <= i < |e| ensures FieldMatches(a + [f], e[i], p) {
      assert FieldMatches(a, e[i], p);
      GetAppend(a, f, e[i].key);
    }
  }

  lemma KeptIsAsked(fields: seq<Field>, values: seq<Json>)
    requires |values| == |fields|
    ensures forall j :: 0 <= j < |Keep(fields, values)| ==> Keep(fields, values)[j].key != ABSENT
  {
    var kept := Keep(fields, values);
    forall j | 0 <= j < |kept| ensures kept[j].key != ABSENT {
      assert kept[j] in kept;
      KeepMembers(fields, values, kept[j]);
    }
  }

  /** A name on an "$absent" list of the object itself: add that key. */
  lemma BreakHere(c: Json, p: Place, i: nat) returns (a: Json)
    requires c.JObj? && p != TraceEvents && IsValue(c) && Matchable(c, p)
    requires i < |c.fields| && c.fields[i].key == ABSENT && c.fields[i].value != JList([])
    ensures Breaks(a, c, p)
  {
    assert FieldMatchable(c.fields, c.fields[i], p);
    var names := c.fields[i].value.items;
    var key := names[0].s;
    var kept := Strip(c).fields;
    var values := StripValues(c.fields);
    StripFields(c);
    a := JObj(kept + [Field(key, JNull)]);
    KeepHas(c.fields, values, key);
    KeptIsAsked(c.fields, values);
    StripIsValue(c);
    StripMatchesItself(c, p);
    AppendedStillMatches(kept, Field(key, JNull), kept, p);
    AppendedIsValue(kept, key);
    assert a.fields[|kept|].key == key;
    assert !FieldMatches(a.fields, c.fields[i], p);
  }

  lemma AppendedIsValue(fields: seq<Field>, key: string)
    requires IsValue(JObj(fields)) && !HasKey(fields, key)
    ensures IsValue(JObj(fields + [Field(key, JNull)]))
  {
  }

  /** A break inside one field of the object. */
  lemma BreakField(c: Json, p: Place, i: nat, v: Json) returns (a: Json)
    requires c.JObj? && p != TraceEvents && IsValue(c) && Matchable(c, p)
    requires i < |c.fields| && c.fields[i].key != ABSENT && Breaks(v, c.fields[i].value, Child(p, c.fields[i].key))
    ensures Breaks(a, c, p)
  {
    var values := StripValues(c.fields);
    var changed := values[i := v];
    a := JObj(Keep(c.fields, changed));
    forall j | 0 <= j < |c.fields|
      ensures IsValue(changed[j])
      ensures c.fields[j].key != ABSENT ==> Matches(changed[j], values[j], Child(p, c.fields[j].key))
    {
      StripIsValue(c.fields[j].value);
      assert FieldMatchable(c.fields, c.fields[j], p);
      if c.fields[j].key != ABSENT { StripMatchesItself(c.fields[j].value, Child(p, c.fields[j].key)); }
    }
    StripFields(c);
    KeptIsValue(c.fields, changed);
    KeptMatchesKept(c.fields, changed, values, p);
    KeepGet(c.fields, changed, i);
    assert !FieldMatches(a.fields, c.fields[i], p);
  }

  /** The stripped list with one item replaced still matches the stripped list. */
  lemma ItemReplaced(c: Json, p: Place, i: nat, v: Json)
    requires c.JList? && IsValue(c) && Matchable(c, p) && i < |c.items| && Breaks(v, c.items[i], Inside)
    ensures |Strip(c).items| == |c.items|
    ensures var a := JList(Strip(c).items[i := v]); IsValue(a) && Matches(a, Strip(c), p)
  {
    StripItems(c);
    var items := Strip(c).items;
    var a := JList(items[i := v]);
    forall j | 0 <= j < |items| ensures IsValue(a.items[j]) && Matches(a.items[j], items[j], Inside) {
      StripIsValue(c.items[j]);
      StripMatchesItself(c.items[j], Inside);
    }
    ItemsMatch(a, Strip(c));
    ListMatchIsEmbedding(a, Strip(c), p);
  }

  /** A break inside one item of the list. */
  lemma BreakItem(c: Json, p: Place, i: nat, v: Json) returns (a: Json)
    requires c.JList? && IsValue(c) && Matchable(c, p) && i < |c.items| && Breaks(v, c.items[i], Inside)
    ensures Breaks(a, c, p)
  {
    ItemReplaced(c, p, i, v);
    a := JList(Strip(c).items[i := v]);
    ListMatchIsEmbedding(a, c, p);
    ReplacedItemFails(a, c, i);
  }

  lemma ReplacedItemFails(a: Json, c: Json, i: nat)
    requires a.JList? && c.JList? && |a.items| == |c.items| && i < |c.items| && !Matches(a.items[i], c.items[i], Inside)
    ensures !Embeddable(a.items, c)
  {
    EmbeddingIsItemwise(a, c, i);
  }

  lemma {:induction false} ForbiddenBreaks(c: Json, p: Place) returns (a: Json)
    requires IsValue(c) && Matchable(c, p) && !NothingForbidden(c)
    ensures Breaks(a, c, p)
    decreases c
  {
    if c.JList? {
      var i :| 0 <= i < |c.items| && !NothingForbidden(c.items[i]);
      var v := ForbiddenBreaks(c.items[i], Inside);
      a := BreakItem(c, p, i, v);
    } else {
      var i :| 0 <= i < |c.fields|
        && if c.fields[i].key == ABSENT then c.fields[i].value != JList([]) else !NothingForbidden(c.fields[i].value);
      assert FieldMatchable(c.fields, c.fields[i], p);
      if c.fields[i].key == ABSENT {
        a := BreakHere(c, p, i);
      } else {
        var v := ForbiddenBreaks(c.fields[i].value, Child(p, c.fields[i].key));
        a := BreakField(c, p, i, v);
      }
    }
  }

  // ---------------------------------------------------------------- the law, of the comparison itself

  lemma CompareTransitive(a: Json, b: Json, c: Json)
    requires Compare(a, b, []) == [] && Compare(b, c, []) == [] && NothingForbidden(c)
    ensures Compare(a, c, []) == []
  {
    CompareIffMatches(a, b, []);
    CompareIffMatches(b, c, []);
    CompareIffMatches(a, c, []);
    MatchesTransitive(a, b, c, Root);
  }

  lemma ComparedIsMatchable(b: Json, c: Json)
    ensures Compare(b, c, []) == [] ==> Matchable(c, Root)
  {
    CompareIffMatches(b, c, []);
    if Matches(b, c, Root) { MatchedIsMatchable(b, c, Root); }
  }

  /** Some value matches `c` exactly when it is matchable in structure. */
  lemma CompareMatchableIff(c: Json)
    requires IsValue(c)
    ensures (exists b :: IsValue(b) && Compare(b, c, []) == []) <==> Matchable(c, Root)
  {
    if b :| IsValue(b) && Compare(b, c, []) == [] {
      ComparedIsMatchable(b, c);
    }
    if Matchable(c, Root) {
      StripMatches(c, Root);
      StripIsValue(c);
      CompareIffMatches(Strip(c), c, []);
    }
  }

  /** Whatever matches a value that matches `c` matches `c`. */
  ghost predicate Composes(c: Json) {
    forall a, b :: IsValue(a) && IsValue(b) ==> ComposesFor(a, b, c)
  }

  ghost predicate ComposesFor(a: Json, b: Json, c: Json) {
    Compare(a, b, []) == [] && Compare(b, c, []) == [] ==> Compare(a, c, []) == []
  }

  /** Comparison with `c` composes exactly when nothing can match `c` or `c` forbids nothing. */
  lemma ComposesIff(c: Json)
    requires IsValue(c)
    ensures Composes(c) <==> !Matchable(c, Root) || NothingForbidden(c)
  {
    if !Matchable(c, Root) || NothingForbidden(c) {
      forall a, b | IsValue(a) && IsValue(b) ensures ComposesFor(a, b, c) { AlwaysComposes(a, b, c); }
    } else {
      var a, b := NotComposing(c);
      assert !ComposesFor(a, b, c);
    }
  }

  lemma AlwaysComposes(a: Json, b: Json, c: Json)
    requires !Matchable(c, Root) || NothingForbidden(c)
    ensures ComposesFor(a, b, c)
  {
    ComparedIsMatchable(b, c);
    if Compare(a, b, []) == [] && Compare(b, c, []) == [] && NothingForbidden(c) { CompareTransitive(a, b, c); }
  }

  lemma NotComposing(c: Json) returns (a: Json, b: Json)
    requires IsValue(c) && Matchable(c, Root) && !NothingForbidden(c)
    ensures IsValue(a) && IsValue(b) && Compare(a, b, []) == [] && Compare(b, c, []) == [] && Compare(a, c, []) != []
  {
    a := ForbiddenBreaks(c, Root);
    b := Strip(c);
    StripIsValue(c);
    StripMatches(c, Root);
    CompareIffMatches(a, b, []);
    CompareIffMatches(b, c, []);
    CompareIffMatches(a, c, []);
  }

  /** The smallest case: an "$absent" key in `c` is met by `b` and not by `a`. */
  lemma AbsentBreaksTransitivity() returns (a: Json, b: Json, c: Json)
    ensures Compare(a, b, []) == [] && Compare(b, c, []) == [] && Compare(a, c, []) != []
  {
    a, b := JObj([Field("x", JNull)]), JObj([]);
    c := JObj([Field(ABSENT, JList([JStr("x")]))]);
    assert a.fields[0].key == "x";
    assert c.fields[0].value.items[0] == JStr("x");
    assert FieldMatches(b.fields, c.fields[0], Root);
    assert !FieldMatches(a.fields, c.fields[0], Root);
    CompareIffMatches(a, b, []);
    CompareIffMatches(b, c, []);
    CompareIffMatches(a, c, []);
  }
}
