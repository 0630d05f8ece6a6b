/** Runtime.Inline and inline (shared/apikit/discovery.go:221-333), which update the path's seen set
    and the definitions in place, against the functions of Inlining. */
module Inliner {
  import opened Options
  import opened Schemas
  import opened Inlining
  import opened Cycles

  /** A self-contained document: what is inlined, and the recursive schemas it and they refer to. */
  datatype Document = Document(body: Json, defs: map<string, Json>)

  function Attach(d: Document): Json
    requires d.body.Obj?
  {
    if d.defs == map[] then d.body else Obj(d.body.fields["$defs" := Obj(d.defs)])
  }

  function Filled(defs: map<string, Option<Json>>): set<string> {
    set n | n in defs && defs[n].Some?
  }

  ghost function PartRefs(fields: map<string, Json>): set<string> {
    set k, r | k in fields && r in Refs(fields[k]) :: r
  }

  /** Names only added, each empty, one for each reference kept in what was inlined. */
  ghost predicate Noted(before: map<string, Option<Json>>, after: map<string, Option<Json>>, refs: set<string>) {
    && Locals(after.Keys) == Locals(before.Keys) + refs
    && (forall n | n in before :: n in after && after[n] == before[n])
    && (forall n | n in after && n !in before :: after[n].None?)
  }

  class Runtime {
    const registry: Registry
    var seen: set<string>
    var defs: map<string, Option<Json>>  // None until inlined

    constructor (registry: Registry)
      ensures this.registry == registry
    {
      this.registry := registry;
      seen := {};
      defs := map[];
    }

    method InlineValue(v: Json) returns (r: Option<Json>)
      requires IsRegistry(registry) && PlainBeside(v) && seen <= AllRefs(registry) && defs.Keys <= registry.Keys
      modifies this
      ensures seen == old(seen) && defs.Keys <= registry.Keys
      ensures r == Inlined(registry, v, old(seen))
      ensures r.Some? ==> Noted(old(defs), defs, Refs(r.value))
      decreases |AllRefs(registry) - seen|, v
    {
      match v
      case Arr(items) => r := InlineItems(items);
      case Obj(fields) =>
        if IsRef(v) {
          r := InlineRef(v);
        } else {
          r := InlineFields(fields);
        }
      case _ =>
        ScalarInlines(registry, v, seen);
        r := Some(v);
    }

    method InlineRef(v: Json) returns (r: Option<Json>)
      requires IsRegistry(registry) && PlainBeside(v) && seen <= AllRefs(registry) && defs.Keys <= registry.Keys
      requires IsRef(v)
      modifies this
      ensures seen == old(seen) && defs.Keys <= registry.Keys
      ensures r == Inlined(registry, v, old(seen))
      ensures r.Some? ==> Noted(old(defs), defs, Refs(r.value))
      decreases |AllRefs(registry) - seen|, v, 0
    {
      hide *;
      var ref := RefOf(v);
      RefAtTop(v);
      if ref in seen {
        InlinedSeen(registry, v, seen);
        KeptRefs(v);
        NoteOne(defs, LastSegment(ref));
        var name := LastSegment(ref);
        if name !in defs { defs := defs[name := None]; }
        return Some(Kept(v));
      }
      var target := Resolve(registry, ref);
      InlinedFollows(registry, v, seen);
      if target.None? { return None; }
      ResolvedIsPlain(registry, ref);
      OverKeepsPlain(target.value, Beside(v));
      seen := seen + {ref};
      r := InlineValue(Over(target.value, Beside(v)));
      seen := seen - {ref};
    }

    method InlineItems(items: seq<Json>) returns (r: Option<Json>)
      requires IsRegistry(registry) && PlainBeside(Arr(items)) && seen <= AllRefs(registry) && defs.Keys <= registry.Keys
      modifies this
      ensures seen == old(seen) && defs.Keys <= registry.Keys
      ensures r == Inlined(registry, Arr(items), old(seen))
      ensures r.Some? ==> Noted(old(defs), defs, Refs(r.value))
      decreases |AllRefs(registry) - seen|, Arr(items), 0
    {
      hide *;
      InlinedItems(registry, Arr(items), seen);
      NoItemsNoRefs();
      NothingNoted(defs);
      var out: seq<Json> := [];
      for i := 0 to |items|
        invariant seen == old(seen) && defs.Keys <= registry.Keys
        invariant |out| == i && forall j | 0 <= j < i :: Inlined(registry, items[j], seen) == Some(out[j])
        invariant Noted(old(defs), defs, Refs(Arr(out)))
      {
        ItemBelow(Arr(items), i);
        ghost var known := defs;
        var item := InlineValue(items[i]);
        if item.None? { return None; }
        RefsOfMore(out, item.value);
        NotedTwice(old(defs), known, defs, Refs(Arr(out)), Refs(item.value));
        out := out + [item.value];
      }
      AllItemsInlined(registry, items, seen, out);
      r := Some(Arr(out));
    }

    method InlineFields(fields: map<string, Json>) returns (r: Option<Json>)
      requires IsRegistry(registry) && PlainBeside(Obj(fields)) && seen <= AllRefs(registry) && defs.Keys <= registry.Keys
      requires !IsRef(Obj(fields))
      modifies this
      ensures seen == old(seen) && defs.Keys <= registry.Keys
      ensures r == Inlined(registry, Obj(fields), old(seen))
      ensures r.Some? ==> Noted(old(defs), defs, Refs(r.value))
      decreases |AllRefs(registry) - seen|, Obj(fields), 0
    {
      hide *;
      InlinedFields(registry, Obj(fields), seen);
      NoPartsNoRefs();
      NothingNoted(defs);
      var out: map<string, Json> := map[];
      var left := fields.Keys;
      while left != {}
        invariant seen == old(seen) && defs.Keys <= registry.Keys
        invariant left <= fields.Keys && out.Keys == fields.Keys - left
        invariant forall k | k in out :: Inlined(registry, fields[k], seen) == Some(out[k])
        invariant Noted(old(defs), defs, PartRefs(out))
        decreases left
      {
        var k :| k in left;
        left := left - {k};
        FieldBelow(Obj(fields), k);
        ghost var known := defs;
        var field := InlineValue(fields[k]);
        if field.None? { return None; }
        PartRefsOfMore(out, k, field.value);
        NotedTwice(old(defs), known, defs, PartRefs(out), Refs(field.value));
        out := out[k := field.value];
      }
      AllFieldsInlined(registry, fields, seen, out);
      InlinedIsNoRef(registry, Obj(fields), seen);
      RefsOfObject(out);
      r := Some(Obj(out));
    }

    /** One turn of Inline's loop: the definition of name, inlined. */
    method FillDefinition(name: string, ghost root: Json) returns (ok: bool)
      requires IsRegistry(registry) && DefsStand(registry, root, defs) && name in defs && defs[name].None?
      modifies this
      ensures !ok ==> Inlined(registry, registry[name], {REGISTRY + name}).None?
      ensures ok ==> DefsStand(registry, root, defs) && FilledOne(old(defs), defs, name)
    {
      hide *;
      InRegistry(registry, root, defs, name);
      var ref := REGISTRY + name;
      NameOfRef(registry, name);
      var target := Resolve(registry, ref);
      if target.None? { return false; }
      seen := {ref};
      var inlined := InlineValue(target.value);
      if inlined.None? { return false; }
      FillKeeps(registry, root, old(defs), defs, name, inlined.value);
      defs := defs[name := inlined];
      ok := true;
    }

    /** Runtime.Inline: root as a self-contained document. It fails only when a reference root leads to
        names nothing; what it yields means what root meant, at every depth; the references left name
        definitions, each inlined, each on a cycle root leads to, each reached from the body; and where
        root leads to no cycle, there are none. */
    method Inline(root: Json) returns (r: Option<Json>, ghost d: Document)
      requires IsRegistry(registry) && PlainBeside(root) && root.Obj?
      modifies this
      ensures r.None? ==> !Closed(registry, root)
      ensures r.Some? ==> d.body.Obj? && r.value == Attach(d) && Stands(registry, root, d)
      ensures r.Some? && IsRef(root) && HasHead(Source(registry), root) ==> BesideStands(registry, root, d)
    {
      hide *;
      seen, defs := {}, map[];
      d := Document(root, map[]);
      NoneSeen(registry, root);
      var out := InlineValue(root);
      if out.None? {
        if Closed(registry, root) { ClosedInlines(registry, root, {}); }
        return None, d;
      }
      StartKeeps(registry, root, out.value, defs);
      while exists n :: n in defs && defs[n].None?
        invariant DefsStand(registry, root, defs) && AllNamed(out.value, defs)
        decreases |registry.Keys - Filled(defs)|
      {
        var name :| name in defs && defs[name].None?;
        ghost var before := defs;
        var ok := FillDefinition(name, root);
        if !ok {
          if Closed(registry, root) { DefinitionInlines(registry, root, before, name); }
          return None, d;
        }
        FilledOneMore(registry, root, out.value, before, defs, name);
      }
      var bundled := Bundled(defs);
      InlinedKeepsKind(registry, root, {});
      d := Document(out.value, bundled);
      AllFilledStand(registry, root, out.value, defs, d);
      if IsRef(root) && HasHead(Source(registry), root) { KeepsWhatIsBeside(registry, root, d); }
      AttachIs(d);
      r := Some(if bundled == map[] then out.value else Obj(out.value.fields["$defs" := Obj(bundled)]));
    }
  }

  /** The definitions inlined so far. */
  function Bundled(defs: map<string, Option<Json>>): map<string, Json> {
    map n | n in defs && defs[n].Some? :: defs[n].value
  }

  /** Each reference leads to the next: the first from the body, the others from the definition before. */
  ghost predicate Chain(body: Json, defs: map<string, Json>, p: seq<string>) {
    && p != [] && DEFS + p[0] in Refs(body)
    && forall i | 0 <= i < |p| - 1 :: p[i] in defs && DEFS + p[i + 1] in Refs(defs[p[i]])
  }

  ghost predicate ReachedFrom(body: Json, defs: map<string, Json>, n: string) {
    exists p :: Chain(body, defs, p) && p[|p| - 1] == n
  }

  /** Every definition is of a schema on a cycle root leads to, and those inlined already refer to
      definitions. */
  ghost predicate DefsStand(reg: Registry, root: Json, defs: map<string, Option<Json>>) {
    && defs.Keys <= reg.Keys
    && (forall n | n in defs :: OnCycle(reg, n) && LedTo(reg, root, REGISTRY + n))
    && (forall n | n in defs && defs[n].Some? ::
      Inlined(reg, reg[n], {REGISTRY + n}) == defs[n] && Refs(defs[n].value) <= Locals(defs.Keys))
  }

  /** name alone is newly inlined, and every definition added is one it refers to. */
  ghost predicate FilledOne(before: map<string, Option<Json>>, after: map<string, Option<Json>>, name: string) {
    && name in after && after[name].Some? && name in before && before[name].None?
    && (forall n | n in before && n != name :: n in after && after[n] == before[n])
    && (forall n | n in after && n !in before :: after[n].None? && DEFS + n in Refs(after[name].value))
  }

  /** The body's references name definitions, and each definition is reached from the body. */
  ghost predicate AllNamed(body: Json, defs: map<string, Option<Json>>) {
    && Refs(body) <= Locals(defs.Keys)
    && forall n | n in defs :: ReachedFrom(body, Bundled(defs), n)
  }

  /** What is promised of an inlined document. */
  ghost predicate Stands(reg: Registry, root: Json, d: Document) {
    && (forall depth :: Unfold(Bundle(d.defs), d.body, depth) == Unfold(Source(reg), root, depth))
    && IsBundle(reg, d.defs) && Refs(d.body) <= Locals(d.defs.Keys)
    && (forall n | n in d.defs :: OnCycle(reg, n) && LedTo(reg, root, REGISTRY + n) && ReachedFrom(d.body, d.defs, n))
    && (Acyclic(reg, root) ==> d.defs == map[] && Refs(d.body) == {})
  }

  /** What is beside the root's reference is in what it is inlined to, each key with its own meaning, and
      so is every other key of the schema referred to. */
  ghost predicate BesideStands(reg: Registry, root: Json, d: Document)
    requires IsRef(root)
  {
    forall depth: nat :: BesideStandsTo(reg, root, d, depth)
  }

  ghost predicate BesideStandsTo(reg: Registry, root: Json, d: Document, depth: nat)
    requires IsRef(root)
  {
    var m := Unfold(Bundle(d.defs), d.body, depth + 1);
    && m.Object?
    && (forall k | k in root.fields && k != "$ref" :: k in m.fields && m.fields[k] == Unfold(Source(reg), root.fields[k], depth))
    && forall name | name in reg && root.fields["$ref"].s == REGISTRY + name ::
         var t := Unfold(Source(reg), reg[name], depth + 1);
         && t.Object?
         && (forall k | k in m.fields && (k !in root.fields || k == "$ref") :: k in t.fields && m.fields[k] == t.fields[k])
         && (forall k | k in t.fields :: k in m.fields)
  }

  lemma KeepsWhatIsBeside(reg: Registry, root: Json, d: Document)
    requires IsRegistry(reg) && IsRef(root) && HasHead(Source(reg), root) && Stands(reg, root, d)
    ensures BesideStands(reg, root, d)
  {
    hide Unfold, IsBundle, Refs, OnCycle, LedTo, ReachedFrom, Acyclic, Head, HeadOf, HasHead, PlainBeside;
    HeadIsObject(reg, root);
    forall depth: nat ensures BesideStandsTo(reg, root, d, depth) {
      BesideOverrides(Source(reg), root, depth);
      assert Unfold(Bundle(d.defs), d.body, depth + 1) == Unfold(Source(reg), root, depth + 1);
      forall name | name in reg && root.fields["$ref"].s == REGISTRY + name ensures Lookup(Source(reg), RefOf(root)) == Some(reg[name]) {
        NameOfRef(reg, name);
      }
    }
  }

  lemma HeadIsObject(reg: Registry, v: Json)
    requires IsRegistry(reg) && v.Obj? && HasHead(Source(reg), v)
    ensures HeadOf(Source(reg), v).Obj?
  {
    var k: nat :| Head(Source(reg), v, k).Some?;
    HeadOfIs(Source(reg), v, k);
    HeadObject(reg, v, k);
  }

  lemma {:induction false} HeadObject(reg: Registry, v: Json, k: nat)
    requires IsRegistry(reg) && v.Obj? && Head(Source(reg), v, k).Some?
    ensures Head(Source(reg), v, k).value.Obj?
    decreases k
  {
    if IsRef(v) {
      ResolvedIsPlain(reg, RefOf(v));
      HeadObject(reg, Over(Lookup(Source(reg), RefOf(v)).value, Beside(v)), k - 1);
    }
  }

  lemma InRegistry(reg: Registry, root: Json, defs: map<string, Option<Json>>, name: string)
    requires IsRegistry(reg) && DefsStand(reg, root, defs) && name in defs
    ensures name in reg && defs.Keys <= reg.Keys && PlainBeside(reg[name])
    ensures {REGISTRY + name} <= AllRefs(reg)
  {
  }

  lemma NoneSeen(reg: Registry, root: Json)
    ensures {} <= AllRefs(reg) && LedHere(reg, {}, root)
  {
  }

  lemma FillKeeps(reg: Registry, root: Json, before: map<string, Option<Json>>, after: map<string, Option<Json>>, name: string, out: Json)
    requires IsRegistry(reg) && DefsStand(reg, root, before) && name in before && before[name].None?
    requires Inlined(reg, reg[name], {REGISTRY + name}) == Some(out)
    requires Noted(before, after, Refs(out)) && after.Keys <= reg.Keys
    ensures DefsStand(reg, root, after[name := Some(out)]) && FilledOne(before, after[name := Some(out)], name)
  {
    hide Inlined, Refs, PlainBeside, Reaches, OnCycle, Resolve, LedTo;
    var ref := REGISTRY + name;
    NameOfRef(reg, name);
    forall x | x in Refs(reg[name]) ensures Reaches(reg, ref, x) { EdgeReaches(reg, ref, x); }
    NotedOnCycles(reg, reg[name], {ref}, out, before, after);
    forall n | n in after && n !in before ensures LedTo(reg, root, REGISTRY + n) {
      LedThrough(reg, root, name, REGISTRY + n);
    }
    assert Locals(before.Keys) <= Locals(after.Keys);
    assert after[name := Some(out)].Keys == after.Keys;
  }

  lemma StartKeeps(reg: Registry, root: Json, out: Json, defs: map<string, Option<Json>>)
    requires IsRegistry(reg) && PlainBeside(root) && Inlined(reg, root, {}) == Some(out)
    requires Noted(map[], defs, Refs(out)) && defs.Keys <= reg.Keys
    ensures DefsStand(reg, root, defs) && AllNamed(out, defs)
  {
    hide Inlined, Refs, PlainBeside, LedTo, OnCycle, ReachedFrom, Bundled;
    NotedOnCycles(reg, root, {}, out, map[], defs);
    forall n | n in defs ensures ReachedFrom(out, Bundled(defs), n) { ReachedAtOnce(out, Bundled(defs), n); }
  }

  lemma DefinitionInlines(reg: Registry, root: Json, defs: map<string, Option<Json>>, name: string)
    requires IsRegistry(reg) && DefsStand(reg, root, defs) && name in defs && Closed(reg, root)
    ensures Inlined(reg, reg[name], {REGISTRY + name}).Some?
  {
    hide Inlined, Refs, PlainBeside, LedTo, OnCycle;
    InRegistry(reg, root, defs, name);
    forall x | LedTo(reg, reg[name], x) ensures x in AllRefs(reg) { LedThrough(reg, root, name, x); }
    ClosedInlines(reg, reg[name], {REGISTRY + name});
  }

  lemma FilledOneMore(reg: Registry, root: Json, body: Json, before: map<string, Option<Json>>, after: map<string, Option<Json>>, name: string)
    requires AllNamed(body, before) && FilledOne(before, after, name) && DefsStand(reg, root, before)
    ensures AllNamed(body, after)
    ensures |reg.Keys - Filled(after)| < |reg.Keys - Filled(before)|
  {
    hide Refs, OnCycle, LedTo;
    NamedStill(body, before, after, name);
    FewerEmpty(reg, before, after, name);
  }

  lemma NamedStill(body: Json, before: map<string, Option<Json>>, after: map<string, Option<Json>>, name: string)
    requires AllNamed(body, before) && FilledOne(before, after, name)
    ensures AllNamed(body, after)
  {
    hide Refs, ReachedFrom;
    assert before.Keys <= after.Keys;
    assert Locals(before.Keys) <= Locals(after.Keys);
    assert forall k | k in Bundled(before) :: k in Bundled(after) && Bundled(after)[k] == Bundled(before)[k];
    hide Bundled;
    forall n | n in after ensures ReachedFrom(body, Bundled(after), n) {
      ReachedStill(body, Bundled(before), Bundled(after), if n in before then n else name);
      if n !in before { ReachedNext(body, Bundled(after), name, n) by { InBundle(after, name); } }
    }
  }

  lemma InBundle(defs: map<string, Option<Json>>, name: string)
    requires name in defs && defs[name].Some?
    ensures name in Bundled(defs) && Bundled(defs)[name] == defs[name].value
  {
  }

  lemma ReachedAtOnce(body: Json, defs: map<string, Json>, n: string)
    requires DEFS + n in Refs(body)
    ensures ReachedFrom(body, defs, n)
  {
    hide Refs;
    assert Chain(body, defs, [n]);
  }

  lemma ReachedNext(body: Json, defs: map<string, Json>, m: string, n: string)
    requires ReachedFrom(body, defs, m) && m in defs && DEFS + n in Refs(defs[m])
    ensures ReachedFrom(body, defs, n)
  {
    hide Refs;
    var p :| Chain(body, defs, p) && p[|p| - 1] == m;
    assert Chain(body, defs, p + [n]);
  }

  lemma ReachedStill(body: Json, before: map<string, Json>, after: map<string, Json>, n: string)
    requires ReachedFrom(body, before, n) && forall k | k in before :: k in after && after[k] == before[k]
    ensures ReachedFrom(body, after, n)
  {
    hide Refs;
    var p :| Chain(body, before, p) && p[|p| - 1] == n;
    assert Chain(body, after, p);
  }

  lemma FewerEmpty(reg: Registry, before: map<string, Option<Json>>, after: map<string, Option<Json>>, name: string)
    requires FilledOne(before, after, name) && name in reg
    ensures |reg.Keys - Filled(after)| < |reg.Keys - Filled(before)|
  {
    hide Refs;
    assert Filled(after) == Filled(before) + {name};
    assert reg.Keys - Filled(before) == (reg.Keys - Filled(after)) + {name};
  }

  lemma AllFilledStand(reg: Registry, root: Json, out: Json, defs: map<string, Option<Json>>, d: Document)
    requires IsRegistry(reg) && PlainBeside(root) && Inlined(reg, root, {}) == Some(out)
    requires DefsStand(reg, root, defs) && AllNamed(out, defs) && forall n | n in defs :: defs[n].Some?
    requires d == Document(out, Bundled(defs))
    ensures Stands(reg, root, d)
  {
    hide Inlined, Refs, PlainBeside, OnCycle, Unfold, LedTo, Chain;
    assert d.defs.Keys == defs.Keys;
    forall n | n in d.defs ensures Refs(d.defs[n]) <= Locals(d.defs.Keys) { assert defs[n].Some?; }
    forall depth ensures Unfold(Bundle(d.defs), d.body, depth) == Unfold(Source(reg), root, depth) {
      MeaningKept(reg, d.defs, root, {}, d.body, depth);
    }
    if Acyclic(reg, root) {
      assert forall n | n in d.defs :: OnCycle(reg, n) && LedTo(reg, root, REGISTRY + n) && n in reg;
      assert d.defs.Keys == {};
    }
  }

  lemma AttachIs(d: Document)
    requires d.body.Obj?
    ensures Attach(d) == if d.defs == map[] then d.body else Obj(d.body.fields["$defs" := Obj(d.defs)])
  {
  }

  /** What inlining v noted, as new definitions, are schemas on cycles v leads to. */
  lemma NotedOnCycles(reg: Registry, v: Json, seen: set<string>, out: Json, before: map<string, Option<Json>>, after: map<string, Option<Json>>)
    requires IsRegistry(reg) && PlainBeside(v) && seen <= AllRefs(reg) && LedHere(reg, seen, v)
    requires Inlined(reg, v, seen) == Some(out) && Noted(before, after, Refs(out)) && after.Keys <= reg.Keys
    ensures before.Keys <= after.Keys
    ensures Refs(out) <= Locals(after.Keys)
    ensures forall n | n in after && n !in before :: OnCycle(reg, n) && LedTo(reg, v, REGISTRY + n) && DEFS + n in Refs(out)
  {
    hide Inlined, Refs, PlainBeside, LedHere, OnCycle, IsRegistry, LedTo;
    forall n | n in after && n !in before ensures OnCycle(reg, n) && LedTo(reg, v, REGISTRY + n) && DEFS + n in Refs(out) {
      assert DEFS + n in Locals(after.Keys);
      if DEFS + n in Locals(before.Keys) {
        var m :| m in before && DEFS + n == DEFS + m;
        SameLocal(n, m);
      }
      KeptOnCycle(reg, v, seen, out, DEFS + n);
      var m :| m in reg && DEFS + n == DEFS + m && OnCycle(reg, m) && LedTo(reg, v, REGISTRY + m);
      SameLocal(n, m);
    }
  }

  lemma AllItemsInlined(reg: Registry, items: seq<Json>, seen: set<string>, out: seq<Json>)
    requires |out| == |items| && forall i | 0 <= i < |items| :: Inlined(reg, items[i], seen) == Some(out[i])
    ensures Inlined(reg, Arr(items), seen) == Some(Arr(out))
  {
    InlinedItems(reg, Arr(items), seen);
    assert Inlined(reg, Arr(items), seen).value.items == out;
  }

  lemma AllFieldsInlined(reg: Registry, fields: map<string, Json>, seen: set<string>, out: map<string, Json>)
    requires !IsRef(Obj(fields))
    requires out.Keys == fields.Keys && forall k | k in fields :: Inlined(reg, fields[k], seen) == Some(out[k])
    ensures Inlined(reg, Obj(fields), seen) == Some(Obj(out))
  {
    InlinedFields(reg, Obj(fields), seen);
    assert Inlined(reg, Obj(fields), seen).value.fields == out;
  }

  lemma SameLocal(n: string, m: string)
    requires DEFS + n == DEFS + m
    ensures n == m
  {
    assert n == (DEFS + n)[|DEFS|..] == (DEFS + m)[|DEFS|..] == m;
  }

  /** A document whose body has no $defs of its own is read back from its attached form. */
  lemma AttachedReadsBack(d: Document)
    requires d.body.Obj? && "$defs" !in d.body.fields
    ensures Attach(d).fields - {"$defs"} == d.body.fields
    ensures d.defs != map[] <==> "$defs" in Attach(d).fields
    ensures d.defs != map[] ==> Attach(d).fields["$defs"] == Obj(d.defs)
  {
  }

  lemma NoteOne(defs: map<string, Option<Json>>, name: string)
    ensures Noted(defs, if name in defs then defs else defs[name := None], {DEFS + name})
  {
  }

  lemma InlinedFollows(reg: Registry, v: Json, seen: set<string>)
    requires IsRef(v) && RefOf(v) !in seen
    ensures Resolve(reg, RefOf(v)).None? ==> Inlined(reg, v, seen).None?
    ensures Resolve(reg, RefOf(v)).Some? ==>
      && Inlined(reg, v, seen) == Inlined(reg, Over(Resolve(reg, RefOf(v)).value, Beside(v)), seen + {RefOf(v)})
      && |AllRefs(reg) - (seen + {RefOf(v)})| < |AllRefs(reg) - seen|
  {
    if Resolve(reg, RefOf(v)).Some? { Fewer(reg, RefOf(v), seen); }
  }

  lemma NothingNoted(defs: map<string, Option<Json>>)
    ensures Noted(defs, defs, {})
  {
  }

  lemma NotedTwice(a: map<string, Option<Json>>, b: map<string, Option<Json>>, c: map<string, Option<Json>>, r: set<string>, s: set<string>)
    requires Noted(a, b, r) && Noted(b, c, s)
    ensures Noted(a, c, r + s)
  {
  }

  lemma NoPartsNoRefs()
    ensures PartRefs(map[]) == {}
  {
  }

  lemma PartRefsOfMore(fields: map<string, Json>, k: string, part: Json)
    requires k !in fields
    ensures PartRefs(fields[k := part]) == PartRefs(fields) + Refs(part)
  {
    assert fields[k := part][k] == part;
    assert forall j | j in fields :: fields[k := part][j] == fields[j];
  }

  lemma NoItemsNoRefs()
    ensures Refs(Arr([])) == {}
  {
  }

  lemma RefsOfObject(fields: map<string, Json>)
    requires !IsRef(Obj(fields))
    ensures Refs(Obj(fields)) == PartRefs(fields)
  {
  }

  lemma KeptRefs(v: Json)
    requires IsRef(v) && NoRefs(Beside(v))
    ensures Refs(Kept(v)) == {DEFS + LastSegment(RefOf(v))}
  {
    RefAtTop(Kept(v));
    forall s | s in Refs(Kept(v)) ensures s == DEFS + LastSegment(RefOf(v)) { KeptHasOne(v, s); }
  }

  lemma RefsOfMore(items: seq<Json>, item: Json)
    ensures Refs(Arr(items + [item])) == Refs(Arr(items)) + Refs(item)
  {
    var more := items + [item];
    assert forall i | 0 <= i < |items| :: more[i] == items[i];
    assert more[|items|] == item;
  }
}
