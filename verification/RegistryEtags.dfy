/** Conditional status updates: an etag read earlier is accepted exactly while nothing has changed. */
module RegistryEtags {
  import opened Wrappers
  import opened RegistryModels
  import opened CapsuleRegistry
  import opened RegistryRuns

  /** The etag an operation would hand out, if it commits. */
  function FreshEtag(op: Op): Option<string> {
    match op
    case CreateOp(_, q) => Some(q.freshEtag)
    case PublishOp(_, q) => Some(q.freshEtag)
    case StatusOp(_, _, _, _, freshEtag) => Some(freshEtag)
    case RemoveOp(_, _) => None
  }

  /** The operation committed a publish, a change of status or the deletion of this capsule. */
  predicate Modifies(cfg: Config, w: World, op: Op, id: string) {
    match op
    case CreateOp(_, _) => false
    case PublishOp(_, q) => q.id == id && Makes(cfg, w, op)
    case StatusOp(_, changed, _, _, _) => changed == id && Step(cfg, w, op).1.capsule.Ok?
    case RemoveOp(_, gone) => gone == id && Step(cfg, w, op).1.done.Ok?
  }

  ghost predicate Unmodified(cfg: Config, w: World, ops: seq<Op>, id: string) {
    forall k :: 0 <= k < |ops| ==> !Modifies(cfg, Run(cfg, w, ops[..k]), ops[k], id)
  }

  /** Generated etags are new: none of these operations hands out `etag` again. */
  ghost predicate NeverReissued(ops: seq<Op>, etag: string) {
    forall k :: 0 <= k < |ops| ==> FreshEtag(ops[k]) != Some(etag)
  }

  lemma StepOnEtag(cfg: Config, w: World, op: Op, id: string, etag: string)
    requires FreshEtag(op) != Some(etag)
    ensures var db, db' := w.store.db, Step(cfg, w, op).0.store.db;
      && (id in db.capsules && !Modifies(cfg, w, op, id) ==> id in db'.capsules && db'.capsules[id] == db.capsules[id])
      && (id in db'.capsules && db'.capsules[id].etag == etag ==>
            id in db.capsules && db.capsules[id].etag == etag && !Modifies(cfg, w, op, id))
  {
    StepIsChange(cfg, w, op);
  }

  lemma UnmodifiedSplit(cfg: Config, w: World, ops: seq<Op>, id: string)
    requires ops != []
    ensures var init, last := ops[..|ops| - 1], ops[|ops| - 1];
      Unmodified(cfg, w, ops, id) <==> Unmodified(cfg, w, init, id) && !Modifies(cfg, Run(cfg, w, init), last, id)
  {
    var init := ops[..|ops| - 1];
    assert forall k :: 0 <= k <= |init| ==> init[..k] == ops[..k];
    assert ops[..|init|] == init;
    if Unmodified(cfg, w, ops, id) {
      forall k | 0 <= k < |init|
        ensures !Modifies(cfg, Run(cfg, w, init[..k]), init[k], id)
      {
        assert !Modifies(cfg, Run(cfg, w, ops[..k]), ops[k], id);
      }
      assert !Modifies(cfg, Run(cfg, w, ops[..|init|]), ops[|init|], id);
    }
    if Unmodified(cfg, w, init, id) && !Modifies(cfg, Run(cfg, w, init), ops[|ops| - 1], id) {
      forall k | 0 <= k < |ops|
        ensures !Modifies(cfg, Run(cfg, w, ops[..k]), ops[k], id)
      {
        if k < |init| {
          assert !Modifies(cfg, Run(cfg, w, init[..k]), init[k], id);
        }
      }
    }
  }

  /** The capsule still carries an etag exactly when nothing modified it; and then it is the same row. */
  lemma {:induction false} EtagMeansUnmodified(cfg: Config, w: World, ops: seq<Op>, id: string)
    requires id in w.store.db.capsules && NeverReissued(ops, w.store.db.capsules[id].etag)
    ensures var (c, db') := (w.store.db.capsules[id], Run(cfg, w, ops).store.db);
      && (id in db'.capsules && db'.capsules[id].etag == c.etag <==> Unmodified(cfg, w, ops, id))
      && (Unmodified(cfg, w, ops, id) ==> id in db'.capsules && db'.capsules[id] == c)
  {
    if ops != [] {
      var init, last := ops[..|ops| - 1], ops[|ops| - 1];
      EtagMeansUnmodified(cfg, w, init, id);
      StepOnEtag(cfg, Run(cfg, w, init), last, id, w.store.db.capsules[id].etag);
      UnmodifiedSplit(cfg, w, ops, id);
    }
  }

  /**
   * A status update that carries the etag read earlier succeeds, for a caller who may make it,
   * if and only if no publish, change of status or deletion of the capsule has committed since that read.
   */
  lemma ConditionalUpdateIff(cfg: Config, w: World, ops: seq<Op>, ctx: Context, id: string, status: Status, freshEtag: string)
    requires Accessible(w.store.db, ctx, id).Ok? && UpdateCapsules in ctx.permissions
    requires NeverReissued(ops, w.store.db.capsules[id].etag)
    ensures SetStatus(Run(cfg, w, ops), ctx, id, status, w.store.db.capsules[id].etag, freshEtag).1.Ok?
       <==> Unmodified(cfg, w, ops, id)
  {
    EtagMeansUnmodified(cfg, w, ops, id);
  }
}
