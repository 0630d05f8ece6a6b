/** JSON Schema documents, and what one means: its references followed, as deep as one looks. */
module Schemas {
  import opened Options

  datatype Json =
    | Null
    | Bool(b: bool)
    | Number(n: real)
    | Str(s: string)
    | Arr(items: seq<Json>)
    | Obj(fields: map<string, Json>)

  const REGISTRY := "#/components/schemas/"
  const DEFS := "#/$defs/"

  /** Schemas by name, and the prefix of the references that name them. */
  datatype Env = Env(prefix: string, schemas: map<string, Json>)

  predicate IsRef(v: Json) {
    v.Obj? && "$ref" in v.fields && v.fields["$ref"].Str?
  }

  function RefOf(v: Json): string
    requires IsRef(v)
  {
    v.fields["$ref"].s
  }

  /** What sits beside a $ref. */
  function Beside(v: Json): (own: map<string, Json>)
    requires v.Obj?
    ensures forall k :: k in own <==> k in v.fields && k != "$ref"
    ensures forall k | k in own :: own[k] == v.fields[k]
  {
    v.fields - {"$ref"}
  }

  /** A referred schema with the field's own keys kept over it: a schema that is no object takes none. */
  function Over(v: Json, own: map<string, Json>): (r: Json)
    ensures !v.Obj? ==> r == v
    ensures v.Obj? ==> r.Obj? && forall k :: k in r.fields <==> k in own || k in v.fields
    ensures v.Obj? ==> forall k | k in r.fields :: r.fields[k] == if k in own then own[k] else v.fields[k]
  {
    if v.Obj? then Obj(v.fields + own) else v
  }

  function Lookup(env: Env, ref: string): (r: Option<Json>)
    ensures r.Some? <==> exists name | name in env.schemas :: ref == env.prefix + name
    ensures forall name | name in env.schemas && ref == env.prefix + name :: r == Some(env.schemas[name])
  {
    if env.prefix <= ref && ref[|env.prefix|..] in env.schemas then
      assert ref == env.prefix + ref[|env.prefix|..];
      Some(env.schemas[ref[|env.prefix|..]])
    else
      assert forall name | name in env.schemas && ref == env.prefix + name :: ref[|env.prefix|..] == name;
      None
  }

  /** v with the references at its top followed, at most k of them. */
  function Head(env: Env, v: Json, k: nat): Option<Json>
    decreases k
  {
    if !IsRef(v) then Some(v)
    else if k == 0 then None
    else match Lookup(env, RefOf(v))
      case None => None
      case Some(target) => Head(env, Over(target, Beside(v)), k - 1)
  }

  /** next is where the reference at v's top leads. */
  predicate Follows(env: Env, v: Json, next: Json) {
    && IsRef(v) && Lookup(env, RefOf(v)).Some?
    && next == Over(Lookup(env, RefOf(v)).value, Beside(v))
  }

  lemma HeadFollows(env: Env, v: Json, next: Json, k: nat)
    requires Follows(env, v, next)
    ensures Head(env, v, k) == if k == 0 then None else Head(env, next, k - 1)
  {
  }

  lemma HeadOfSchema(env: Env, v: Json, k: nat)
    requires !IsRef(v)
    ensures Head(env, v, k) == Some(v)
  {
  }

  ghost predicate HasHead(env: Env, v: Json) {
    exists k: nat :: Head(env, v, k).Some?
  }

  ghost function HeadOf(env: Env, v: Json): Json
    requires HasHead(env, v)
  {
    var k: nat :| Head(env, v, k).Some?;
    Head(env, v, k).value
  }

  lemma {:induction false} HeadIsOne(env: Env, v: Json, j: nat, k: nat)
    requires Head(env, v, j).Some? && Head(env, v, k).Some?
    ensures Head(env, v, j) == Head(env, v, k)
    decreases j
  {
    if IsRef(v) {
      HeadIsOne(env, Over(Lookup(env, RefOf(v)).value, Beside(v)), j - 1, k - 1);
    }
  }

  lemma HeadOfIs(env: Env, v: Json, k: nat)
    requires Head(env, v, k).Some?
    ensures HasHead(env, v) && HeadOf(env, v) == Head(env, v, k).value
  {
    var j: nat :| Head(env, v, j).Some? && HeadOf(env, v) == Head(env, v, j).value;
    HeadIsOne(env, v, j, k);
  }

  /** What a document means down to a depth. Endless is a reference that never reaches a schema: one
      that names none, or a cycle of nothing but references. */
  datatype Meaning =
    | Deeper
    | Endless
    | Scalar(value: Json)
    | List(items: seq<Meaning>)
    | Object(fields: map<string, Meaning>)

  ghost function Unfold(env: Env, v: Json, depth: nat): Meaning
    decreases depth
  {
    if depth == 0 then Deeper
    else if !HasHead(env, v) then Endless
    else match HeadOf(env, v)
      case Arr(items) => List(seq(|items|, i requires 0 <= i < |items| => Unfold(env, items[i], depth - 1)))
      case Obj(fields) => Object(map k | k in fields :: Unfold(env, fields[k], depth - 1))
      case scalar => Scalar(scalar)
  }

  /** One level of meaning, given what each part means a level less deep. */
  lemma UnfoldHead(env: Env, v: Json, depth: nat)
    requires HasHead(env, v) && depth > 0
    ensures var m := Unfold(env, v, depth);
      match HeadOf(env, v)
      case Arr(items) => m.List? && |m.items| == |items| && forall i | 0 <= i < |items| :: m.items[i] == Unfold(env, items[i], depth - 1)
      case Obj(fields) => m.Object? && m.fields.Keys == fields.Keys && forall k | k in fields :: m.fields[k] == Unfold(env, fields[k], depth - 1)
      case scalar => m == Scalar(scalar)
  {
  }

  /** all are t's fields, with own over them. */
  ghost predicate Overriding(all: map<string, Json>, own: map<string, Json>, t: map<string, Json>) {
    && (forall key :: key in all <==> key in own || key in t)
    && (forall key | key in all :: all[key] == if key in own then own[key] else t[key])
  }

  lemma {:induction false} BesideInHead(env: Env, v: Json, own: map<string, Json>, k: nat)
    requires "$ref" !in own && Head(env, Over(v, own), k).Some? && Head(env, Over(v, own), k).value.Obj?
    ensures Head(env, v, k).Some? && Head(env, v, k).value.Obj?
    ensures Overriding(Head(env, Over(v, own), k).value.fields, own, Head(env, v, k).value.fields)
    decreases k
  {
    hide Over, Beside, RefOf, Head, Overriding;
    OverKeepsRef(v, own);
    if IsRef(v) {
      HeadStep(env, v, k);
      HeadStep(env, Over(v, own), k);
      var target := Lookup(env, RefOf(v)).value;
      OverTwice(target, Beside(v), own);
      BesideInHead(env, Over(target, Beside(v)), own, k - 1);
    } else {
      HeadOfSchema(env, v, k);
      HeadOfSchema(env, Over(v, own), k);
      OverIsOverriding(v, own);
    }
  }

  lemma OverIsOverriding(v: Json, own: map<string, Json>)
    ensures Over(v, own).Obj? <==> v.Obj?
    ensures v.Obj? ==> Overriding(Over(v, own).fields, own, v.fields)
  {
  }

  lemma HeadStep(env: Env, v: Json, k: nat)
    requires IsRef(v)
    ensures Head(env, v, k).Some? ==>
      && k > 0 && Lookup(env, RefOf(v)).Some?
    ensures k > 0 && Lookup(env, RefOf(v)).Some? ==>
      Head(env, v, k) == Head(env, Over(Lookup(env, RefOf(v)).value, Beside(v)), k - 1)
  {
  }

  lemma OverTwice(v: Json, a: map<string, Json>, b: map<string, Json>)
    ensures Over(Over(v, a), b) == Over(v, a + b)
  {
    if v.Obj? { assert v.fields + (a + b) == (v.fields + a) + b; }
  }

  /** What is beside a reference overrides what it leads to, and hides nothing else of it: a reference to
      an object means the object, but for the keys beside the reference, which mean what they hold. */
  lemma BesideOverrides(env: Env, v: Json, depth: nat)
    requires IsRef(v) && HasHead(env, v) && HeadOf(env, v).Obj?
    ensures var target := Lookup(env, RefOf(v));
      && target.Some? && HasHead(env, target.value)
      && var (m, t) := (Unfold(env, v, depth + 1), Unfold(env, target.value, depth + 1));
         && m.Object? && t.Object?
         && (forall k :: k in m.fields <==> (k in v.fields && k != "$ref") || k in t.fields)
         && (forall k | k in v.fields && k != "$ref" :: m.fields[k] == Unfold(env, v.fields[k], depth))
         && (forall k | k in t.fields && (k !in v.fields || k == "$ref") :: m.fields[k] == t.fields[k])
  {
    var k: nat :| Head(env, v, k).Some?;
    HeadOfIs(env, v, k);
    var target := Lookup(env, RefOf(v)).value;
    assert Head(env, v, k) == Head(env, Over(target, Beside(v)), k - 1);
    BesideInHead(env, target, Beside(v), k - 1);
    HeadOfIs(env, target, k - 1);
    hide Head, HeadOf, HasHead;
    UnfoldHead(env, v, depth + 1);
    UnfoldHead(env, target, depth + 1);
  }

  /** Every string at a $ref anywhere in v. */
  function Refs(v: Json): set<string> {
    match v
    case Arr(items) => set i, r | 0 <= i < |items| && r in Refs(items[i]) :: r
    case Obj(fields) =>
      (if IsRef(v) then {RefOf(v)} else {}) + set k, r | k in fields && r in Refs(fields[k]) :: r
    case _ => {}
  }

  ghost predicate NoRefs(own: map<string, Json>) {
    "$ref" !in own && forall k | k in own :: Refs(own[k]) == {}
  }

  /** No reference sits beside a reference. */
  ghost predicate PlainBeside(v: Json) {
    match v
    case Arr(items) => forall i | 0 <= i < |items| :: PlainBeside(items[i])
    case Obj(fields) =>
      && (IsRef(v) ==> NoRefs(Beside(v)))
      && forall k | k in fields :: PlainBeside(fields[k])
    case _ => true
  }

  lemma ItemBelow(v: Json, i: nat)
    requires v.Arr? && i < |v.items|
    ensures Refs(v.items[i]) <= Refs(v)
    ensures PlainBeside(v) ==> PlainBeside(v.items[i])
  {
  }

  lemma FieldBelow(v: Json, k: string)
    requires v.Obj? && k in v.fields
    ensures Refs(v.fields[k]) <= Refs(v)
    ensures PlainBeside(v) ==> PlainBeside(v.fields[k])
  {
  }

  lemma RefAtTop(v: Json)
    requires IsRef(v)
    ensures v.Obj? && RefOf(v) in Refs(v)
    ensures PlainBeside(v) ==> NoRefs(Beside(v))
  {
  }

  /** A reference in v that is not v's own is in one of its parts. */
  lemma RefBelow(v: Json, s: string)
    requires s in Refs(v) && !IsRef(v)
    ensures v.Arr? || v.Obj?
    ensures v.Arr? ==> exists i :: 0 <= i < |v.items| && s in Refs(v.items[i])
    ensures v.Obj? ==> exists k :: k in v.fields && s in Refs(v.fields[k])
  {
  }

  lemma {:induction false} RefFreeIsPlain(v: Json)
    requires Refs(v) == {}
    ensures PlainBeside(v)
  {
    match v
    case Arr(items) =>
      forall i | 0 <= i < |items| ensures PlainBeside(items[i]) {
        assert Refs(items[i]) <= Refs(v);
        RefFreeIsPlain(items[i]);
      }
    case Obj(fields) =>
      forall k | k in fields ensures PlainBeside(fields[k]) {
        assert Refs(fields[k]) <= Refs(v);
        RefFreeIsPlain(fields[k]);
      }
      assert !IsRef(v);
    case _ =>
  }

  /** Keys without references kept over a schema leave its reference, if it is one. */
  lemma OverKeepsRef(v: Json, own: map<string, Json>)
    requires "$ref" !in own
    ensures IsRef(Over(v, own)) <==> IsRef(v)
    ensures IsRef(v) ==> RefOf(Over(v, own)) == RefOf(v) && Beside(Over(v, own)) == Beside(v) + own
  {
  }

  /** Keys without references kept over a schema add none, and leave it plain. */
  lemma OverKeepsPlain(v: Json, own: map<string, Json>)
    requires PlainBeside(v) && NoRefs(own)
    ensures PlainBeside(Over(v, own)) && Refs(Over(v, own)) <= Refs(v)
  {
    if v.Obj? {
      OverKeepsRef(v, own);
      var o := Over(v, own);
      forall k | k in o.fields
        ensures PlainBeside(o.fields[k]) && Refs(o.fields[k]) <= Refs(v)
      {
        if k in own { RefFreeIsPlain(own[k]); } else { FieldBelow(v, k); }
      }
      assert NoRefs(own) && IsRef(v) ==> NoRefs(Beside(v) + own);
    }
  }
}
