/** Which references inlining keeps: only those on a cycle of the registry's reference graph. */
module Cycles {
  import opened Options
  import opened Schemas
  import opened Inlining

  /** The schema a names refers to b. */
  ghost predicate Edge(reg: Registry, a: string, b: string) {
    Resolve(reg, a).Some? && b in Refs(Resolve(reg, a).value)
  }

  ghost predicate Path(reg: Registry, p: seq<string>) {
    |p| >= 2 && forall i | 0 <= i < |p| - 1 :: Edge(reg, p[i], p[i + 1])
  }

  ghost predicate Reaches(reg: Registry, a: string, b: string) {
    exists p :: Path(reg, p) && p[0] == a && p[|p| - 1] == b
  }

  ghost predicate OnCycle(reg: Registry, name: string) {
    name in reg && Reaches(reg, REGISTRY + name, REGISTRY + name)
  }

  /** v leads to the reference x: it holds x, or one from which the registry's references reach x. */
  ghost predicate LedTo(reg: Registry, v: Json, x: string) {
    exists r | r in Refs(v) :: r == x || Reaches(reg, r, x)
  }

  /** No schema v leads to is on a cycle. */
  ghost predicate Acyclic(reg: Registry, v: Json) {
    forall n | n in reg && LedTo(reg, v, REGISTRY + n) :: !OnCycle(reg, n)
  }

  /** No reference v leads to names nothing. */
  ghost predicate Closed(reg: Registry, v: Json) {
    forall x | LedTo(reg, v, x) :: x in AllRefs(reg)
  }

  lemma ReachesFrom(reg: Registry, a: string, b: string, c: string)
    requires Edge(reg, a, b) && (b == c || Reaches(reg, b, c))
    ensures Reaches(reg, a, c)
  {
    if b == c {
      EdgeReaches(reg, a, b);
    } else {
      var p :| Path(reg, p) && p[0] == b && p[|p| - 1] == c;
      assert Path(reg, [a] + p);
    }
  }

  lemma {:induction false} ReachesThrough(reg: Registry, a: string, b: string, c: string, p: seq<string>)
    requires Path(reg, p) && p[0] == a && p[|p| - 1] == b && Reaches(reg, b, c)
    ensures Reaches(reg, a, c)
    decreases |p|
  {
    if |p| == 2 {
      ReachesFrom(reg, a, b, c);
    } else {
      assert Path(reg, p[1..]);
      ReachesThrough(reg, p[1], b, c, p[1..]);
      ReachesFrom(reg, a, p[1], c);
    }
  }

  /** What a part leads to, the whole does. */
  lemma LedByPart(reg: Registry, part: Json, v: Json, x: string)
    requires Refs(part) <= Refs(v) && LedTo(reg, part, x)
    ensures LedTo(reg, v, x)
  {
  }

  /** What a schema v names leads to, v does; so does what v leads to. */
  lemma LedThrough(reg: Registry, v: Json, name: string, x: string)
    requires name in reg && IsRegistry(reg) && LedTo(reg, v, REGISTRY + name) && LedTo(reg, reg[name], x)
    ensures LedTo(reg, v, x)
  {
    hide Refs, PlainBeside;
    var ref := REGISTRY + name;
    NameOfRef(reg, name);
    var b :| b in Refs(reg[name]) && (b == x || Reaches(reg, b, x));
    ReachesFrom(reg, ref, b, x);
    var r :| r in Refs(v) && (r == ref || Reaches(reg, r, ref));
    if r != ref {
      var p :| Path(reg, p) && p[0] == r && p[|p| - 1] == ref;
      ReachesThrough(reg, r, ref, x, p);
    }
  }

  lemma LedToItsOwn(reg: Registry, v: Json, x: string)
    requires x in Refs(v)
    ensures LedTo(reg, v, x)
  {
  }

  lemma EdgeReaches(reg: Registry, a: string, b: string)
    requires Edge(reg, a, b)
    ensures Reaches(reg, a, b)
  {
    assert Path(reg, [a, b]);
  }

  lemma ReachesOn(reg: Registry, a: string, b: string, c: string)
    requires Reaches(reg, a, b) && Edge(reg, b, c)
    ensures Reaches(reg, a, c)
  {
    var p :| Path(reg, p) && p[0] == a && p[|p| - 1] == b;
    assert Path(reg, p + [c]);
  }

  /** Each reference on the path here leads to every reference below v. */
  ghost predicate LedHere(reg: Registry, seen: set<string>, v: Json) {
    forall r, x | r in seen && x in Refs(v) :: Reaches(reg, r, x)
  }

  /** The references of a schema just followed are led to by the one followed, and by all before it. */
  lemma StillLedHere(reg: Registry, seen: set<string>, v: Json)
    requires IsRegistry(reg) && PlainBeside(v) && IsRef(v) && Resolve(reg, RefOf(v)).Some? && LedHere(reg, seen, v)
    ensures var next := Over(Resolve(reg, RefOf(v)).value, Beside(v));
      PlainBeside(next) && Refs(next) <= Refs(Resolve(reg, RefOf(v)).value) && LedHere(reg, seen + {RefOf(v)}, next)
  {
    var ref := RefOf(v);
    var target := Resolve(reg, ref).value;
    OverKeepsPlain(target, Beside(v));
    assert ref in Refs(v);
    forall r, x | r in seen + {ref} && x in Refs(Over(target, Beside(v))) ensures Reaches(reg, r, x) {
      assert Edge(reg, ref, x);
      EdgeReaches(reg, ref, x);
      if r in seen { ReachesOn(reg, r, ref, x); }
    }
  }

  /** Every reference left after inlining is into $defs, and names a schema on a cycle that v leads to. */
  lemma {:induction false} KeptOnCycle(reg: Registry, v: Json, seen: set<string>, out: Json, s: string)
    requires IsRegistry(reg) && PlainBeside(v) && seen <= AllRefs(reg) && LedHere(reg, seen, v)
    requires Inlined(reg, v, seen) == Some(out) && s in Refs(out)
    ensures exists n | n in reg :: s == DEFS + n && OnCycle(reg, n) && LedTo(reg, v, REGISTRY + n)
    decreases |AllRefs(reg) - seen|, v
  {
    hide Inlined, Refs, PlainBeside, LedTo, OnCycle;
    if v.Arr? {
      InlinedItems(reg, v, seen);
      RefBelow(out, s);
      var i :| 0 <= i < |out.items| && s in Refs(out.items[i]);
      ItemBelow(v, i);
      KeptOnCycle(reg, v.items[i], seen, out.items[i], s);
      KeptByPart(reg, v.items[i], v, s);
    } else if IsRef(v) && RefOf(v) in seen {
      InlinedSeen(reg, v, seen);
      RefAtTop(v);
      KeptHasOne(v, s);
      LedToItsOwn(reg, v, RefOf(v));
      SeenOnCycle(reg, v, seen);
    } else if IsRef(v) {
      InlinedUnseen(reg, v, seen);
      StillLedHere(reg, seen, v);
      var next := Over(Resolve(reg, RefOf(v)).value, Beside(v));
      KeptOnCycle(reg, next, seen + {RefOf(v)}, out, s);
      var n :| n in reg && s == DEFS + n && OnCycle(reg, n) && LedTo(reg, next, REGISTRY + n);
      FollowedLeads(reg, v, REGISTRY + n);
    } else if v.Obj? {
      InlinedFields(reg, v, seen);
      InlinedIsNoRef(reg, v, seen);
      RefBelow(out, s);
      var k :| k in out.fields && s in Refs(out.fields[k]);
      FieldBelow(v, k);
      KeptOnCycle(reg, v.fields[k], seen, out.fields[k], s);
      KeptByPart(reg, v.fields[k], v, s);
    } else {
      ScalarInlines(reg, v, seen);
      assert false;
    }
  }

  lemma SeenOnCycle(reg: Registry, v: Json, seen: set<string>)
    requires IsRegistry(reg) && IsRef(v) && RefOf(v) in seen && RefOf(v) in Refs(v) && LedHere(reg, seen, v)
    requires LastSegment(RefOf(v)) in reg && RefOf(v) == REGISTRY + LastSegment(RefOf(v))
    ensures OnCycle(reg, LastSegment(RefOf(v)))
  {
  }

  lemma KeptByPart(reg: Registry, part: Json, v: Json, s: string)
    requires Refs(part) <= Refs(v)
    requires exists n | n in reg :: s == DEFS + n && OnCycle(reg, n) && LedTo(reg, part, REGISTRY + n)
    ensures exists n | n in reg :: s == DEFS + n && OnCycle(reg, n) && LedTo(reg, v, REGISTRY + n)
  {
    hide Refs, OnCycle, LedTo;
    var n :| n in reg && s == DEFS + n && OnCycle(reg, n) && LedTo(reg, part, REGISTRY + n);
    LedByPart(reg, part, v, REGISTRY + n);
  }

  /** What the schema just followed leads to, the reference to it does. */
  lemma FollowedLeads(reg: Registry, v: Json, x: string)
    requires IsRegistry(reg) && PlainBeside(v) && IsRef(v) && Resolve(reg, RefOf(v)).Some?
    requires LedTo(reg, Over(Resolve(reg, RefOf(v)).value, Beside(v)), x)
    ensures LedTo(reg, v, x)
  {
    hide Refs, PlainBeside;
    var ref, target := RefOf(v), Resolve(reg, RefOf(v)).value;
    RefAtTop(v);
    ResolvedIsPlain(reg, ref);
    OverKeepsPlain(target, Beside(v));
    var r :| r in Refs(Over(target, Beside(v))) && (r == x || Reaches(reg, r, x));
    assert Edge(reg, ref, r);
    ReachesFrom(reg, ref, r, x);
  }

  lemma KeptHasOne(v: Json, s: string)
    requires IsRef(v) && NoRefs(Beside(v)) && s in Refs(Kept(v))
    ensures s == DEFS + LastSegment(RefOf(v))
  {
    forall k | k in Kept(v).fields ensures Refs(Kept(v).fields[k]) == {} {
      assert k != "$ref" ==> k in Beside(v);
    }
  }

  /** A document without cycles, as far as it leads, keeps no reference. */
  lemma AcyclicKeepsNone(reg: Registry, v: Json, out: Json)
    requires IsRegistry(reg) && PlainBeside(v) && Acyclic(reg, v) && Inlined(reg, v, {}) == Some(out)
    ensures Refs(out) == {}
  {
    hide Inlined, Refs, PlainBeside, OnCycle, LedTo;
    if s :| s in Refs(out) { KeptOnCycle(reg, v, {}, out, s); }
  }

  lemma ClosedPart(reg: Registry, part: Json, v: Json)
    requires Refs(part) <= Refs(v) && Closed(reg, v)
    ensures Closed(reg, part)
  {
    hide Refs, LedTo;
    forall x | LedTo(reg, part, x) ensures x in AllRefs(reg) { LedByPart(reg, part, v, x); }
  }

  /** Inlining never fails where every reference led to names a schema. */
  lemma {:induction false} ClosedInlines(reg: Registry, v: Json, seen: set<string>)
    requires IsRegistry(reg) && PlainBeside(v) && Closed(reg, v)
    ensures Inlined(reg, v, seen).Some?
    decreases |AllRefs(reg) - seen|, v
  {
    hide Refs, PlainBeside, LedTo;
    if v.Arr? {
      forall i | 0 <= i < |v.items| ensures Inlined(reg, v.items[i], seen).Some? {
        ItemBelow(v, i);
        ClosedPart(reg, v.items[i], v);
        ClosedInlines(reg, v.items[i], seen);
      }
      InlinedItems(reg, v, seen);
    } else if v.Obj? && !IsRef(v) {
      forall k | k in v.fields ensures Inlined(reg, v.fields[k], seen).Some? {
        FieldBelow(v, k);
        ClosedPart(reg, v.fields[k], v);
        ClosedInlines(reg, v.fields[k], seen);
      }
      InlinedFields(reg, v, seen);
    } else if v.Obj? && RefOf(v) !in seen {
      RefAtTop(v);
      LedToItsOwn(reg, v, RefOf(v));
      var n :| n in reg && RefOf(v) == REGISTRY + n;
      NameOfRef(reg, n);
      Fewer(reg, RefOf(v), seen);
      OverKeepsPlain(reg[n], Beside(v));
      var next := Over(reg[n], Beside(v));
      forall x | LedTo(reg, next, x) ensures x in AllRefs(reg) { FollowedLeads(reg, v, x); }
      ClosedInlines(reg, next, seen + {RefOf(v)});
    }
  }
}
