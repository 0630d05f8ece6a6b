/** What inlining a schema yields (shared/apikit/discovery.go), as functions of the registry, and that
    it means what the schema meant. */
module Inlining {
  import opened Options
  import opened Schemas

  type Registry = map<string, Json>

  /** huma's registry: every schema an object, and no name empty or with a slash. */
  ghost predicate IsRegistry(reg: Registry) {
    && (forall n | n in reg :: reg[n].Obj? && PlainBeside(reg[n]))
    && (forall n | n in reg :: n != "" && '/' !in n)
  }

  function Source(reg: Registry): Env { Env(REGISTRY, reg) }
  function Bundle(defs: map<string, Json>): Env { Env(DEFS, defs) }

  function Resolve(reg: Registry, ref: string): Option<Json> { Lookup(Source(reg), ref) }

  lemma ResolvedIsPlain(reg: Registry, ref: string)
    requires IsRegistry(reg) && Resolve(reg, ref).Some?
    ensures Resolve(reg, ref).value.Obj? && PlainBeside(Resolve(reg, ref).value)
    ensures ref in AllRefs(reg)
  {
  }

  function AllRefs(reg: Registry): set<string> { set n | n in reg :: REGISTRY + n }

  function LastSegment(ref: string): string {
    if ref == "" then ""
    else if ref[|ref| - 1] == '/' then ""
    else LastSegment(ref[..|ref| - 1]) + [ref[|ref| - 1]]
  }

  lemma {:induction false} LastSegmentOfName(prefix: string, name: string)
    requires '/' !in name
    ensures LastSegment(prefix + "/" + name) == name
  {
    var ref := prefix + "/" + name;
    if name != "" {
      var shorter := name[..|name| - 1];
      assert ref[..|ref| - 1] == prefix + "/" + shorter;
      assert ref[|ref| - 1] == name[|name| - 1];
      LastSegmentOfName(prefix, shorter);
      assert shorter + [name[|name| - 1]] == name;
    }
  }

  lemma NameOfRef(reg: Registry, name: string)
    requires IsRegistry(reg) && name in reg
    ensures LastSegment(REGISTRY + name) == name
    ensures Resolve(reg, REGISTRY + name) == Some(reg[name])
    ensures Resolve(reg, REGISTRY + name).Some?
  {
    var stem := "#/components/schemas";
    assert REGISTRY + name == stem + "/" + name;
    LastSegmentOfName(stem, name);
    assert (REGISTRY + name)[|REGISTRY|..] == name;
  }

  function Kept(v: Json): Json
    requires IsRef(v)
  {
    Obj(v.fields["$ref" := Str(DEFS + LastSegment(RefOf(v)))])
  }

  lemma Fewer(reg: Registry, ref: string, seen: set<string>)
    requires Resolve(reg, ref).Some? && ref !in seen
    ensures |AllRefs(reg) - (seen + {ref})| < |AllRefs(reg) - seen|
  {
    assert ref in AllRefs(reg);
    assert AllRefs(reg) - seen == (AllRefs(reg) - (seen + {ref})) + {ref};
  }

  /** v with every reference replaced by what it names, but those in seen, which are kept as references
      into $defs. None when a reference names nothing. */
  function Inlined(reg: Registry, v: Json, seen: set<string>): Option<Json>
    decreases |AllRefs(reg) - seen|, v
  {
    match v
    case Arr(items) =>
      if forall i | 0 <= i < |items| :: Inlined(reg, items[i], seen).Some? then
        Some(Arr(seq(|items|, i requires 0 <= i < |items| && Inlined(reg, items[i], seen).Some? => Inlined(reg, items[i], seen).value)))
      else None
    case Obj(fields) =>
      if IsRef(v) then
        if RefOf(v) in seen then Some(Kept(v))
        else match Resolve(reg, RefOf(v))
          case None => None
          case Some(target) =>
            Fewer(reg, RefOf(v), seen);
            Inlined(reg, Over(target, Beside(v)), seen + {RefOf(v)})
      else if forall k | k in fields :: Inlined(reg, fields[k], seen).Some? then
        Some(Obj(map k | k in fields && Inlined(reg, fields[k], seen).Some? :: Inlined(reg, fields[k], seen).value))
      else None
    case _ => Some(v)
  }

  /** Every definition is its schema inlined, and every reference left names one. */
  ghost predicate IsBundle(reg: Registry, defs: map<string, Json>) {
    forall n | n in defs ::
      && n in reg
      && Inlined(reg, reg[n], {REGISTRY + n}) == Some(defs[n])
      && Refs(defs[n]) <= Locals(defs.Keys)
  }

  function Locals(names: set<string>): set<string> { set n | n in names :: DEFS + n }

  /** out is v inlined, somewhere in a bundle. */
  ghost predicate Twins(reg: Registry, defs: map<string, Json>, v: Json, seen: set<string>, out: Json) {
    && PlainBeside(v) && seen <= AllRefs(reg)
    && Inlined(reg, v, seen) == Some(out)
    && Refs(out) <= Locals(defs.Keys)
  }

  ghost predicate TwinsSomehow(reg: Registry, defs: map<string, Json>, v: Json, out: Json) {
    exists seen :: Twins(reg, defs, v, seen, out)
  }

  /** Two documents that are no references, with twins below. */
  ghost predicate Alike(reg: Registry, defs: map<string, Json>, v: Json, out: Json) {
    match v
    case Arr(items) =>
      && out.Arr? && |out.items| == |items|
      && forall i | 0 <= i < |items| :: TwinsSomehow(reg, defs, items[i], out.items[i])
    case Obj(fields) =>
      && out.Obj? && out.fields.Keys == fields.Keys
      && forall k | k in fields :: TwinsSomehow(reg, defs, fields[k], out.fields[k])
    case _ => out == v
  }

  lemma {:induction false} RefFreeIsItself(reg: Registry, v: Json, seen: set<string>)
    requires Refs(v) == {}
    ensures Inlined(reg, v, seen) == Some(v)
  {
    match v
    case Arr(items) =>
      forall i | 0 <= i < |items| ensures Inlined(reg, items[i], seen) == Some(items[i]) {
        assert Refs(items[i]) <= Refs(v);
        RefFreeIsItself(reg, items[i], seen);
      }
      assert Inlined(reg, v, seen).value.items == items;
    case Obj(fields) =>
      assert !IsRef(v);
      forall k | k in fields ensures Inlined(reg, fields[k], seen) == Some(fields[k]) {
        FieldBelow(v, k);
        RefFreeIsItself(reg, fields[k], seen);
      }
      assert Inlined(reg, v, seen).value.fields == fields;
    case _ =>
  }

  /** Inlining keeps a document's kind, so what is no reference becomes none. */
  lemma {:induction false} InlinedKeepsKind(reg: Registry, v: Json, seen: set<string>)
    requires IsRegistry(reg) && PlainBeside(v) && Inlined(reg, v, seen).Some?
    ensures Inlined(reg, v, seen).value.Obj? <==> v.Obj?
    ensures Inlined(reg, v, seen).value.Str? <==> v.Str?
    decreases |AllRefs(reg) - seen|
  {
    if IsRef(v) && RefOf(v) !in seen {
      Fewer(reg, RefOf(v), seen);
      var target := Resolve(reg, RefOf(v)).value;
      OverKeepsPlain(target, Beside(v));
      InlinedKeepsKind(reg, Over(target, Beside(v)), seen + {RefOf(v)});
    }
  }

  lemma InlinedIsNoRef(reg: Registry, v: Json, seen: set<string>)
    requires IsRegistry(reg) && PlainBeside(v) && v.Obj? && !IsRef(v) && Inlined(reg, v, seen).Some?
    ensures !IsRef(Inlined(reg, v, seen).value)
  {
    if "$ref" in v.fields {
      FieldBelow(v, "$ref");
      InlinedKeepsKind(reg, v.fields["$ref"], seen);
    }
  }

  lemma InlinedAlike(reg: Registry, defs: map<string, Json>, v: Json, seen: set<string>, out: Json, own: map<string, Json>)
    requires IsRegistry(reg) && Twins(reg, defs, v, seen, out) && !IsRef(v) && NoRefs(own)
    ensures !IsRef(Over(v, own)) && !IsRef(Over(out, own))
    ensures Alike(reg, defs, Over(v, own), Over(out, own))
  {
    hide Inlined, Refs, PlainBeside;
    OverKeepsRef(v, own);
    match v
    case Arr(items) =>
      InlinedItems(reg, v, seen);
      forall i | 0 <= i < |items| ensures TwinsSomehow(reg, defs, items[i], out.items[i]) {
        ItemBelow(out, i);
        ItemBelow(v, i);
        assert Twins(reg, defs, items[i], seen, out.items[i]);
      }
    case Obj(fields) =>
      InlinedFields(reg, v, seen);
      InlinedIsNoRef(reg, v, seen);
      OverKeepsRef(out, own);
      forall k | k in fields + own ensures TwinsSomehow(reg, defs, (fields + own)[k], Over(out, own).fields[k]) {
        if k in own {
          RefFreeIsItself(reg, own[k], {});
          RefFreeIsPlain(own[k]);
          assert Twins(reg, defs, own[k], {}, own[k]);
        } else {
          FieldBelow(out, k);
          FieldBelow(v, k);
          assert Twins(reg, defs, fields[k], seen, out.fields[k]);
        }
      }
    case _ =>
      ScalarInlines(reg, v, seen);
  }

  lemma ScalarInlines(reg: Registry, v: Json, seen: set<string>)
    requires !v.Arr? && !v.Obj?
    ensures Inlined(reg, v, seen) == Some(v) && Refs(v) == {}
  {
  }

  lemma InlinedItems(reg: Registry, v: Json, seen: set<string>)
    requires v.Arr?
    ensures Inlined(reg, v, seen).Some? <==> forall i | 0 <= i < |v.items| :: Inlined(reg, v.items[i], seen).Some?
    ensures Inlined(reg, v, seen).Some? ==> var out := Inlined(reg, v, seen).value;
      && out.Arr? && |out.items| == |v.items|
      && forall i | 0 <= i < |v.items| :: Inlined(reg, v.items[i], seen) == Some(out.items[i])
  {
  }

  lemma InlinedFields(reg: Registry, v: Json, seen: set<string>)
    requires v.Obj? && !IsRef(v)
    ensures Inlined(reg, v, seen).Some? <==> forall k | k in v.fields :: Inlined(reg, v.fields[k], seen).Some?
    ensures Inlined(reg, v, seen).Some? ==> var out := Inlined(reg, v, seen).value;
      && out.Obj? && out.fields.Keys == v.fields.Keys
      && forall k | k in v.fields :: Inlined(reg, v.fields[k], seen) == Some(out.fields[k])
  {
  }

  lemma InlinedUnseen(reg: Registry, v: Json, seen: set<string>)
    requires IsRef(v) && RefOf(v) !in seen && Inlined(reg, v, seen).Some?
    ensures Resolve(reg, RefOf(v)).Some? && RefOf(v) in AllRefs(reg)
    ensures Inlined(reg, v, seen) == Inlined(reg, Over(Resolve(reg, RefOf(v)).value, Beside(v)), seen + {RefOf(v)})
    ensures |AllRefs(reg) - (seen + {RefOf(v)})| < |AllRefs(reg) - seen|
  {
    Fewer(reg, RefOf(v), seen);
  }

  lemma InlinedSeen(reg: Registry, v: Json, seen: set<string>)
    requires IsRegistry(reg) && IsRef(v) && RefOf(v) in seen && seen <= AllRefs(reg)
    ensures var n := LastSegment(RefOf(v));
      && n in reg && RefOf(v) == REGISTRY + n
      && Inlined(reg, v, seen) == Some(Kept(v))
      && IsRef(Kept(v)) && RefOf(Kept(v)) == DEFS + n && Beside(Kept(v)) == Beside(v)
  {
    var n :| n in reg && RefOf(v) == REGISTRY + n;
    NameOfRef(reg, n);
    assert Beside(Kept(v)) == Beside(v);
  }

  /** One reference of v followed: what it names, inlined further along the path. */
  lemma StepUnseen(reg: Registry, defs: map<string, Json>, v: Json, seen: set<string>, out: Json, own: map<string, Json>)
    returns (next: Json)
    requires IsRegistry(reg) && Twins(reg, defs, v, seen, out) && NoRefs(own)
    requires IsRef(v) && RefOf(v) !in seen
    ensures Twins(reg, defs, next, seen + {RefOf(v)}, out)
    ensures Follows(Source(reg), Over(v, own), Over(next, own))
    ensures |AllRefs(reg) - (seen + {RefOf(v)})| < |AllRefs(reg) - seen|
  {
    InlinedUnseen(reg, v, seen);
    OverKeepsRef(v, own);
    var target := Resolve(reg, RefOf(v)).value;
    OverKeepsPlain(target, Beside(v));
    OverTwice(target, Beside(v), own);
    next := Over(target, Beside(v));
  }

  /** One reference kept: what it names in the registry, and in the bundle, are twins. */
  lemma StepSeen(reg: Registry, defs: map<string, Json>, v: Json, seen: set<string>, out: Json, own: map<string, Json>)
    returns (n: string, own': map<string, Json>)
    requires IsRegistry(reg) && IsBundle(reg, defs) && Twins(reg, defs, v, seen, out) && NoRefs(own)
    requires IsRef(v) && RefOf(v) in seen
    ensures n in defs && n in reg && Twins(reg, defs, reg[n], {REGISTRY + n}, defs[n]) && NoRefs(own')
    ensures Follows(Source(reg), Over(v, own), Over(reg[n], own'))
    ensures Follows(Bundle(defs), Over(out, own), Over(defs[n], own'))
  {
    InlinedSeen(reg, v, seen);
    n := LastSegment(RefOf(v));
    NameOfRef(reg, n);
    KeptIsLocal(defs, v, n);
    OverKeepsRef(v, own);
    OverKeepsRef(out, own);
    own' := Beside(v) + own;
  }

  lemma KeptIsLocal(defs: map<string, Json>, v: Json, n: string)
    requires IsRef(v) && n == LastSegment(RefOf(v)) && Refs(Kept(v)) <= Locals(defs.Keys)
    ensures n in defs && Lookup(Bundle(defs), DEFS + n) == Some(defs[n])
  {
    assert RefOf(Kept(v)) in Refs(Kept(v));
    var m :| m in defs && DEFS + n == DEFS + m;
    assert n == (DEFS + n)[|DEFS|..] == (DEFS + m)[|DEFS|..] == m;
  }

  /** Following the original's references to a schema, the inlined one's lead to its twin. */
  lemma {:induction false} HeadForward(reg: Registry, defs: map<string, Json>, v: Json, seen: set<string>, out: Json,
                                       own: map<string, Json>, k: nat)
    returns (j: nat)
    requires IsRegistry(reg) && IsBundle(reg, defs) && Twins(reg, defs, v, seen, out) && NoRefs(own)
    requires Head(Source(reg), Over(v, own), k).Some?
    ensures Head(Bundle(defs), Over(out, own), j).Some?
    ensures Alike(reg, defs, Head(Source(reg), Over(v, own), k).value, Head(Bundle(defs), Over(out, own), j).value)
    decreases k
  {
    hide *;
    if !IsRef(v) {
      InlinedAlike(reg, defs, v, seen, out, own);
      HeadOfSchema(Source(reg), Over(v, own), k);
      HeadOfSchema(Bundle(defs), Over(out, own), 0);
      j := 0;
    } else if RefOf(v) !in seen {
      var next := StepUnseen(reg, defs, v, seen, out, own);
      HeadFollows(Source(reg), Over(v, own), Over(next, own), k);
      j := HeadForward(reg, defs, next, seen + {RefOf(v)}, out, own, k - 1);
    } else {
      var n, own' := StepSeen(reg, defs, v, seen, out, own);
      HeadFollows(Source(reg), Over(v, own), Over(reg[n], own'), k);
      j := HeadForward(reg, defs, reg[n], {REGISTRY + n}, defs[n], own', k - 1);
      j := j + 1;
      HeadFollows(Bundle(defs), Over(out, own), Over(defs[n], own'), j);
    }
  }

  /** And when the inlined one's lead to a schema, the original's do. */
  lemma {:induction false} HeadBackward(reg: Registry, defs: map<string, Json>, v: Json, seen: set<string>, out: Json,
                                        own: map<string, Json>, j: nat)
    returns (k: nat)
    requires IsRegistry(reg) && IsBundle(reg, defs) && Twins(reg, defs, v, seen, out) && NoRefs(own)
    requires Head(Bundle(defs), Over(out, own), j).Some?
    ensures Head(Source(reg), Over(v, own), k).Some?
    decreases j, |AllRefs(reg) - seen|
  {
    hide *;
    if !IsRef(v) {
      InlinedAlike(reg, defs, v, seen, out, own);
      HeadOfSchema(Source(reg), Over(v, own), 0);
      k := 0;
    } else if RefOf(v) !in seen {
      var next := StepUnseen(reg, defs, v, seen, out, own);
      k := HeadBackward(reg, defs, next, seen + {RefOf(v)}, out, own, j);
      k := k + 1;
      HeadFollows(Source(reg), Over(v, own), Over(next, own), k);
    } else {
      var n, own' := StepSeen(reg, defs, v, seen, out, own);
      HeadFollows(Bundle(defs), Over(out, own), Over(defs[n], own'), j);
      k := HeadBackward(reg, defs, reg[n], {REGISTRY + n}, defs[n], own', j - 1);
      k := k + 1;
      HeadFollows(Source(reg), Over(v, own), Over(reg[n], own'), k);
    }
  }

  /** Inlining preserves meaning, at every depth: the inlined schema read against its $defs is the
      original read against the registry. */
  lemma {:induction false} MeaningKept(reg: Registry, defs: map<string, Json>, v: Json, seen: set<string>, out: Json, depth: nat)
    requires IsRegistry(reg) && IsBundle(reg, defs) && Twins(reg, defs, v, seen, out)
    ensures Unfold(Bundle(defs), out, depth) == Unfold(Source(reg), v, depth)
    decreases depth, 1
  {
    hide Inlined, IsBundle, IsRegistry, Twins, Head, HeadOf;
    if depth > 0 {
      assert Over(v, map[]) == v && Over(out, map[]) == out;
      if HasHead(Source(reg), v) {
        var k: nat :| Head(Source(reg), v, k).Some?;
        var j := HeadForward(reg, defs, v, seen, out, map[], k);
        HeadOfIs(Source(reg), v, k);
        HeadOfIs(Bundle(defs), out, j);
        AlikeMeansSame(reg, defs, HeadOf(Source(reg), v), HeadOf(Bundle(defs), out), v, out, depth);
      } else if HasHead(Bundle(defs), out) {
        var j: nat :| Head(Bundle(defs), out, j).Some?;
        var k := HeadBackward(reg, defs, v, seen, out, map[], j);
        assert false;
      }
    }
  }

  lemma {:induction false} AlikeMeansSame(reg: Registry, defs: map<string, Json>, h: Json, h': Json, v: Json, out: Json, depth: nat)
    requires IsRegistry(reg) && IsBundle(reg, defs) && depth > 0
    requires HasHead(Source(reg), v) && HeadOf(Source(reg), v) == h
    requires HasHead(Bundle(defs), out) && HeadOf(Bundle(defs), out) == h'
    requires Alike(reg, defs, h, h')
    ensures Unfold(Bundle(defs), out, depth) == Unfold(Source(reg), v, depth)
    decreases depth, 0
  {
    hide Unfold, HasHead, HeadOf, Inlined, IsBundle, IsRegistry, TwinsSomehow;
    UnfoldHead(Source(reg), v, depth);
    UnfoldHead(Bundle(defs), out, depth);
    match h
    case Arr(items) =>
      forall i | 0 <= i < |items|
        ensures Unfold(Bundle(defs), h'.items[i], depth - 1) == Unfold(Source(reg), items[i], depth - 1)
      {
        TwinsMeanSame(reg, defs, items[i], h'.items[i], depth - 1);
      }
    case Obj(fields) =>
      forall k | k in fields
        ensures Unfold(Bundle(defs), h'.fields[k], depth - 1) == Unfold(Source(reg), fields[k], depth - 1)
      {
        TwinsMeanSame(reg, defs, fields[k], h'.fields[k], depth - 1);
      }
    case _ =>
  }

  lemma {:induction false} TwinsMeanSame(reg: Registry, defs: map<string, Json>, v: Json, out: Json, depth: nat)
    requires IsRegistry(reg) && IsBundle(reg, defs) && TwinsSomehow(reg, defs, v, out)
    ensures Unfold(Bundle(defs), out, depth) == Unfold(Source(reg), v, depth)
    decreases depth, 2
  {
    hide Unfold, Inlined, IsBundle, IsRegistry, Twins;
    var seen :| Twins(reg, defs, v, seen, out);
    MeaningKept(reg, defs, v, seen, out, depth);
  }
}
