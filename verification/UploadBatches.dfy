/** How a publish uploads its content: blobs gathered into calls within the server's limits
    (internal/publish/publish.go). */
module UploadBatches {
  type Oid = nat

  /** What a file held when read. Blob ids are taken to be injective: the id stands for the bytes. */
  datatype Blob = Blob(id: Oid, size: nat)
  datatype Read = Unreadable | Content(blob: Blob)

  /** The server's limits on one call, as it gives them. */
  datatype Limits = Limits(blobs: int, bytes: int)

  /** How the server answers a call: with an error, or with the ids it gives the blobs. */
  datatype Answer = Refused | Named(ids: seq<Oid>)

  /** How an upload ends: the file, or the call, at fault. */
  datatype Outcome = Done | CannotRead(file: nat) | Changed(file: nat) | CallFailed(call: nat) | Misnamed(call: nat)

  type Call = seq<Blob>

  function Size(call: Call): nat {
    if call == [] then 0 else Size(call[..|call| - 1]) + call[|call| - 1].size
  }

  function Ids(call: Call): seq<Oid> {
    seq(|call|, i requires 0 <= i < |call| => call[i].id)
  }

  function Flat(calls: seq<Call>): Call {
    if calls == [] then [] else Flat(calls[..|calls| - 1]) + calls[|calls| - 1]
  }

  predicate Fits(call: Call, limits: Limits) {
    |call| <= limits.blobs && Size(call) <= limits.bytes
  }

  /** A blob joins the call being gathered, unless that is full or would be too large. */
  predicate Joins(call: Call, b: Blob, limits: Limits) {
    |call| != limits.blobs && Size(call) + b.size <= limits.bytes
  }

  /** One more blob, in the last call or in a new one. */
  function Add(calls: seq<Call>, b: Blob, limits: Limits): seq<Call> {
    if calls != [] && Joins(calls[|calls| - 1], b, limits)
    then calls[..|calls| - 1] + [calls[|calls| - 1] + [b]]
    else calls + [[b]]
  }

  /** The calls blobs are to go in. */
  function Plan(blobs: Call, limits: Limits): seq<Call> {
    if blobs == [] then []
    else Add(Plan(blobs[..|blobs| - 1], limits), blobs[|blobs| - 1], limits)
  }

  ghost predicate NoneEmpty(calls: seq<Call>) {
    forall k | 0 <= k < |calls| :: calls[k] != []
  }

  lemma AddHoldsAll(calls: seq<Call>, b: Blob, limits: Limits)
    requires NoneEmpty(calls)
    ensures Flat(Add(calls, b, limits)) == Flat(calls) + [b]
    ensures NoneEmpty(Add(calls, b, limits)) && Add(calls, b, limits) != []
  {
    hide Flat, Joins;
    if calls != [] {
      var rest, call := calls[..|calls| - 1], calls[|calls| - 1];
      assert calls == rest + [call];
      FlatMore(rest, call);
      FlatMore(rest, call + [b]);
      assert Flat(rest) + (call + [b]) == Flat(rest) + call + [b];
    }
    FlatMore(calls, [b]);
  }

  /** The calls, none empty, hold exactly the blobs, in order. */
  lemma {:induction false} PlanHoldsAll(blobs: Call, limits: Limits)
    ensures Flat(Plan(blobs, limits)) == blobs && NoneEmpty(Plan(blobs, limits))
    ensures blobs != [] <==> Plan(blobs, limits) != []
  {
    if blobs != [] {
      hide Add, Flat;
      var front, b := blobs[..|blobs| - 1], blobs[|blobs| - 1];
      PlanHoldsAll(front, limits);
      AddHoldsAll(Plan(front, limits), b, limits);
      assert blobs == front + [b];
    }
  }

  lemma FlatMore(calls: seq<Call>, call: Call)
    ensures Flat(calls + [call]) == Flat(calls) + call
  {
    assert (calls + [call])[..|calls|] == calls;
  }

  lemma SizeMore(call: Call, b: Blob)
    ensures Size(call + [b]) == Size(call) + b.size
  {
    assert (call + [b])[..|call|] == call;
  }

  lemma {:induction false} SizeOfEnd(call: Call, k: nat)
    requires k <= |call|
    ensures Size(call[k..]) <= Size(call)
  {
    if k < |call| {
      var front, b := call[..|call| - 1], call[|call| - 1];
      SizeOfEnd(front, k);
      SizeMore(front[k..], b);
      assert call[k..] == front[k..] + [b];
    }
  }

  ghost predicate AllFit(calls: seq<Call>, limits: Limits) {
    forall k | 0 <= k < |calls| :: Fits(calls[k], limits)
  }

  lemma AddFits(calls: seq<Call>, b: Blob, limits: Limits)
    requires NoneEmpty(calls)
    ensures AllFit(Add(calls, b, limits), limits) <==> AllFit(calls, limits) && limits.blobs >= 1 && b.size <= limits.bytes
  {
    hide Size;
    SizeMore([], b);
    assert [] + [b] == [b] && Size([]) == 0 by { NoSize(); }
    var all := Add(calls, b, limits);
    assert calls[..|calls|] == calls;
    if calls != [] && Joins(calls[|calls| - 1], b, limits) {
      var call := calls[|calls| - 1];
      SizeMore(call, b);
      assert all[|all| - 1] == call + [b];
      assert forall k | 0 <= k < |calls| - 1 :: all[k] == calls[k];
    } else {
      assert all[|all| - 1] == [b];
      assert forall k | 0 <= k < |calls| :: all[k] == calls[k];
    }
  }

  lemma NoSize()
    ensures Size([]) == 0
  {
  }

  /** Every call of the plan is within the limits if and only if there is nothing to upload, or a call
      may hold a blob and no blob is too large for one of its own. */
  lemma {:induction false} PlanFits(blobs: Call, limits: Limits)
    ensures AllFit(Plan(blobs, limits), limits)
            <==> (blobs == [] || (limits.blobs >= 1 && forall k | 0 <= k < |blobs| :: blobs[k].size <= limits.bytes))
  {
    if blobs != [] {
      hide Add, AllFit;
      var front, b := blobs[..|blobs| - 1], blobs[|blobs| - 1];
      PlanFits(front, limits);
      PlanHoldsAll(front, limits);
      AddFits(Plan(front, limits), b, limits);
      assert front != [] || AllFit(Plan(front, limits), limits) by { NoneToFit(limits); }
      assert forall k | 0 <= k < |front| :: front[k] == blobs[k];
    }
  }

  lemma NoneToFit(limits: Limits)
    ensures AllFit([], limits) && Plan([], limits) == []
  {
  }

  predicate Ahead(plan: seq<Call>, other: seq<Call>) {
    || |plan| < |other|
    || (|plan| == |other| && (plan == [] || |plan[|plan| - 1]| <= |other[|other| - 1]|))
  }

  /** No way to divide the blobs, in order, into calls within the limits takes fewer calls. */
  lemma {:induction false} FewestCalls(other: seq<Call>, limits: Limits)
    requires AllFit(other, limits)
    ensures |Plan(Flat(other), limits)| <= |other| && Ahead(Plan(Flat(other), limits), other)
    decreases |Flat(other)|, |other|
  {
    if other == [] { return; }
    var blobs := Flat(other);
    var rest, last := other[..|other| - 1], other[|other| - 1];
    assert blobs == Flat(rest) + last;
    if last == [] {
      assert blobs == Flat(rest);
      FewestCalls(rest, limits);
    } else {
      var e, b := last[..|last| - 1], last[|last| - 1];
      assert last == e + [b];
      SizeMore(e, b);
      FlatMore(rest, e);
      assert Fits(last, limits);
      assert blobs == Flat(rest + [e]) + [b];
      FewestCalls(rest + [e], limits);
      StaysAhead(rest, e, b, limits);
    }
  }

  /** One more blob in the other division's last call does not put the plan behind. */
  lemma StaysAhead(rest: seq<Call>, e: Call, b: Blob, limits: Limits)
    requires Fits(e + [b], limits) && Ahead(Plan(Flat(rest + [e]), limits), rest + [e])
    ensures Ahead(Plan(Flat(rest + [e]) + [b], limits), rest + [e + [b]])
  {
    hide Plan, Size, Flat;
    var front := Flat(rest + [e]);
    var before := Plan(front, limits);
    PlanHoldsAll(front, limits);
    PlanMore(front, b, limits);
    if before != [] && |before| == |rest| + 1 {
      var call := before[|before| - 1];
      FlatMore(rest, e);
      FlatMore(before[..|before| - 1], call);
      assert before == before[..|before| - 1] + [call];
      var k := |e| - |call|;
      assert front == Flat(rest) + e == Flat(before[..|before| - 1]) + call;
      assert e[k..] == front[|front| - |call|..] == call;
      SizeOfEnd(e, k);
      SizeMore(e, b);
      assert Joins(call, b, limits);
    }
  }

  /** The files up to here could be read, each holding what it is named by. */
  ghost predicate Good(oids: seq<Oid>, files: seq<Read>)
    requires |oids| == |files|
  {
    forall i | 0 <= i < |oids| :: files[i].Content? && files[i].blob.id == oids[i]
  }

  function Blobs(files: seq<Read>): Call
    requires forall f | f in files :: f.Content?
  {
    seq(|files|, i requires 0 <= i < |files| => files[i].blob)
  }

  /** The server named these calls' blobs as they are named here. */
  ghost predicate Accepted(calls: seq<Call>, server: nat -> Answer) {
    forall k: nat | k < |calls| :: server(k) == Named(Ids(calls[k]))
  }

  /** What was sent, and why no more was: all of the plan; or, a file being at fault, the calls that were
      full before it; or, a call being at fault, the plan's calls up to that one. */
  ghost predicate Sent(oids: seq<Oid>, files: seq<Read>, limits: Limits, server: nat -> Answer, calls: seq<Call>, end: Outcome)
    requires |oids| == |files|
  {
    match end
    case Done => Good(oids, files) && calls == Plan(Blobs(files), limits) && Accepted(calls, server)
    case CannotRead(i) => FileAtFault(oids, files, limits, server, calls, i) && files[i].Unreadable?
    case Changed(i) => FileAtFault(oids, files, limits, server, calls, i) && files[i].Content? && files[i].blob.id != oids[i]
    case CallFailed(k) => CallAtFault(oids, files, limits, server, calls, k) && server(k).Refused?
    case Misnamed(k) =>
      CallAtFault(oids, files, limits, server, calls, k) && server(k).Named? && server(k).ids != Ids(calls[k])
  }

  ghost predicate FileAtFault(oids: seq<Oid>, files: seq<Read>, limits: Limits, server: nat -> Answer, calls: seq<Call>, i: nat)
    requires |oids| == |files|
  {
    && i < |files| && Good(oids[..i], files[..i]) && Accepted(calls, server)
    && var plan := Plan(Blobs(files[..i]), limits);
       calls == if plan == [] then [] else plan[..|plan| - 1]
  }

  ghost predicate CallAtFault(oids: seq<Oid>, files: seq<Read>, limits: Limits, server: nat -> Answer, calls: seq<Call>, k: nat)
    requires |oids| == |files|
  {
    && |calls| == k + 1 && Accepted(calls[..k], server)
    && exists i :: 0 < i <= |files| && Good(oids[..i], files[..i]) && calls == Plan(Blobs(files[..i]), limits)
                   && (i == |files| || (Good(oids[..i + 1], files[..i + 1]) && !Joins(calls[k], files[i].blob, limits)))
  }

  /** Sends the call gathered so far, if there is one. */
  method Flush(calls: seq<Call>, batch: Call, server: nat -> Answer) returns (sent: seq<Call>, end: Outcome)
    ensures batch == [] ==> sent == calls && end == Done
    ensures batch != [] ==> sent == calls + [batch]
    ensures match end
            case Done => batch != [] ==> server(|calls|) == Named(Ids(batch))
            case CallFailed(k) => batch != [] && k == |calls| && server(k).Refused?
            case Misnamed(k) => batch != [] && k == |calls| && server(k).Named? && server(k).ids != Ids(batch)
            case _ => false
  {
    if batch == [] { return calls, Done; }
    sent := calls + [batch];
    match server(|calls|)
    case Refused => end := CallFailed(|calls|);
    case Named(got) => end := if got != Ids(batch) then Misnamed(|calls|) else Done;
  }

  /** Uploads the blobs, reading each from its file: calls are those sent. */
  method Upload(oids: seq<Oid>, files: seq<Read>, limits: Limits, server: nat -> Answer) returns (calls: seq<Call>, end: Outcome)
    requires |oids| == |files|
    ensures Sent(oids, files, limits, server, calls, end)
  {
    hide Plan, Good, Size, Ids, Blobs, Flat, Gathered;
    NothingGathered(oids, files, limits);
    calls := [];
    if |oids| == 0 { return calls, Done; }
    var batch: Call := [];
    var size := 0;
    for i := 0 to |oids|
      invariant Gathered(oids, files, limits, calls, batch, i) && Accepted(calls, server)
      invariant size == Size(batch) && (batch == [] <==> i == 0)
    {
      Reached(oids, files, limits, calls, batch, i);
      if files[i].Unreadable? { return calls, CannotRead(i); }
      var content := files[i].blob;
      if content.id != oids[i] { return calls, Changed(i); }
      GatherOne(oids, files, limits, calls, batch, i);
      if |batch| == limits.blobs || size + content.size > limits.bytes {
        calls, end := Flush(calls, batch, server);
        if end != Done { return; }
        batch, size := [], 0;
      }
      SizeMore(batch, content);
      assert [] + [content] == [content];
      batch, size := batch + [content], size + content.size;
    }
    Reached(oids, files, limits, calls, batch, |oids|);
    calls, end := Flush(calls, batch, server);
    assert oids[..|oids|] == oids && files[..|files|] == files;
  }

  /** The calls sent and the one being gathered are the plan of the files so far. */
  ghost predicate Gathered(oids: seq<Oid>, files: seq<Read>, limits: Limits, calls: seq<Call>, batch: Call, i: nat)
    requires |oids| == |files|
  {
    && i <= |files| && Good(oids[..i], files[..i])
    && Plan(Blobs(files[..i]), limits) == (if batch == [] then calls else calls + [batch])
    && (batch == [] <==> i == 0) && (i == 0 ==> calls == [])
  }

  lemma NothingGathered(oids: seq<Oid>, files: seq<Read>, limits: Limits)
    requires |oids| == |files|
    ensures Gathered(oids, files, limits, [], [], 0) && Size([]) == 0
  {
  }

  lemma Reached(oids: seq<Oid>, files: seq<Read>, limits: Limits, calls: seq<Call>, batch: Call, i: nat)
    requires |oids| == |files| && Gathered(oids, files, limits, calls, batch, i)
    ensures i <= |files| && Good(oids[..i], files[..i])
    ensures forall f | f in files[..i] :: f.Content?
    ensures Plan(Blobs(files[..i]), limits) == (if batch == [] then calls else calls + [batch])
  {
  }

  lemma GatherOne(oids: seq<Oid>, files: seq<Read>, limits: Limits, calls: seq<Call>, batch: Call, i: nat)
    requires i < |files| == |oids| && Gathered(oids, files, limits, calls, batch, i)
    requires files[i].Content? && files[i].blob.id == oids[i]
    ensures Good(oids[..i + 1], files[..i + 1])
    ensures batch != [] && Joins(batch, files[i].blob, limits) ==>
      Gathered(oids, files, limits, calls, batch + [files[i].blob], i + 1)
    ensures batch != [] && !Joins(batch, files[i].blob, limits) ==>
      Gathered(oids, files, limits, calls + [batch], [files[i].blob], i + 1)
    ensures batch == [] ==> Gathered(oids, files, limits, calls, [files[i].blob], i + 1)
  {
    hide Plan, Good, Blobs, Add, Joins;
    Reached(oids, files, limits, calls, batch, i);
    GoodMore(oids, files, i);
    PlanMore(Blobs(files[..i]), files[i].blob, limits);
    AddOne(calls, batch, files[i].blob, limits);
  }

  lemma AddOne(calls: seq<Call>, batch: Call, b: Blob, limits: Limits)
    ensures batch != [] ==>
      Add(calls + [batch], b, limits) == if Joins(batch, b, limits) then calls + [batch + [b]] else calls + [batch] + [[b]]
    ensures Add([], b, limits) == [[b]] == [] + [[b]]
  {
    hide Joins;
    var all := calls + [batch];
    assert all[..|all| - 1] == calls && all[|all| - 1] == batch;
    assert [] + [[b]] == [[b]];
  }

  lemma PlanMore(blobs: Call, b: Blob, limits: Limits)
    ensures Plan(blobs + [b], limits) == Add(Plan(blobs, limits), b, limits)
  {
    assert (blobs + [b])[..|blobs|] == blobs;
  }

  lemma GoodMore(oids: seq<Oid>, files: seq<Read>, i: nat)
    requires i < |files| == |oids| && Good(oids[..i], files[..i])
    requires files[i].Content? && files[i].blob.id == oids[i]
    ensures Good(oids[..i + 1], files[..i + 1])
    ensures Blobs(files[..i + 1]) == Blobs(files[..i]) + [files[i].blob]
    ensures Blobs(files[..i + 1])[..i] == Blobs(files[..i])
  {
    var o, f := oids[..i + 1], files[..i + 1];
    assert o[..i] == oids[..i] && f[..i] == files[..i];
    forall j | 0 <= j < i + 1 ensures f[j].Content? && f[j].blob.id == o[j] {
      if j < i { assert f[j] == files[..i][j] && o[j] == oids[..i][j]; }
    }
  }

  /** How far the files were read, and that the calls are the plan's first. */
  lemma SentFromPlan(oids: seq<Oid>, files: seq<Read>, limits: Limits, server: nat -> Answer, calls: seq<Call>, end: Outcome) returns (i: nat)
    requires |oids| == |files| && Sent(oids, files, limits, server, calls, end)
    ensures i <= |files| && Good(oids[..i], files[..i]) && calls <= Plan(Blobs(files[..i]), limits)
    ensures end.Done? ==> i == |files| && calls == Plan(Blobs(files[..i]), limits)
  {
    hide Plan, Blobs, Joins;
    assert files[..|files|] == files && oids[..|oids|] == oids;
    match end
    case Done => i := |files|;
    case CannotRead(f) => i := f;
    case Changed(f) => i := f;
    case _ => i :| 0 < i <= |files| && Good(oids[..i], files[..i]) && calls == Plan(Blobs(files[..i]), limits);
  }

  lemma {:induction false} FlatOfStart(calls: seq<Call>, all: seq<Call>)
    requires calls <= all
    ensures Flat(calls) <= Flat(all)
    decreases |all|
  {
    if |calls| < |all| { FlatOfStart(calls, all[..|all| - 1]); } else { assert calls == all; }
  }

  /** The calls of an upload that is done name exactly the blobs asked for, in order; the calls of any
      other, a start of that. None is empty, and each is within the limits if no file alone is over them. */
  lemma SentInOrder(oids: seq<Oid>, files: seq<Read>, limits: Limits, server: nat -> Answer, calls: seq<Call>, end: Outcome)
    requires |oids| == |files| && Sent(oids, files, limits, server, calls, end)
    ensures Ids(Flat(calls)) <= oids && (end.Done? ==> Ids(Flat(calls)) == oids)
    ensures NoneEmpty(calls)
    ensures limits.blobs >= 1 && (forall f | f in files && f.Content? :: f.blob.size <= limits.bytes) ==> AllFit(calls, limits)
  {
    hide Plan, Size, Flat, Fits, Sent;
    var i := SentFromPlan(oids, files, limits, server, calls, end);
    var blobs := Blobs(files[..i]);
    var plan := Plan(blobs, limits);
    PlanHoldsAll(blobs, limits);
    PlanFits(blobs, limits);
    FlatOfStart(calls, plan);
    assert Ids(blobs) == oids[..i];
    assert Ids(Flat(calls)) == Ids(blobs)[..|Flat(calls)|];
    if limits.blobs >= 1 && (forall f | f in files && f.Content? :: f.blob.size <= limits.bytes) {
      forall k | 0 <= k < i ensures blobs[k].size <= limits.bytes { assert files[k] in files; }
    }
  }

  /** A limit of no blobs, or fewer, is none: the calls are as under one no call reaches. */
  lemma {:induction false} NoCountLimit(blobs: Call, limits: Limits, many: int)
    requires limits.blobs <= 0 && many > |blobs|
    ensures Plan(blobs, limits) == Plan(blobs, limits.(blobs := many))
  {
    if blobs != [] {
      hide Add, Joins;
      var front := blobs[..|blobs| - 1];
      NoCountLimit(front, limits, many);
      var before := Plan(front, limits);
      PlanHoldsAll(front, limits);
      if before != [] {
        LastNoLonger(before);
        AddEither(before, blobs[|blobs| - 1], limits, many);
      } else {
        AddEither(before, blobs[|blobs| - 1], limits, many);
      }
    }
  }

  lemma LastNoLonger(calls: seq<Call>)
    requires calls != []
    ensures |calls[|calls| - 1]| <= |Flat(calls)|
  {
  }

  lemma AddEither(calls: seq<Call>, b: Blob, limits: Limits, many: int)
    requires limits.blobs <= 0 && (calls != [] ==> 0 < |calls[|calls| - 1]| < many)
    ensures Add(calls, b, limits) == Add(calls, b, limits.(blobs := many))
  {
  }
}
