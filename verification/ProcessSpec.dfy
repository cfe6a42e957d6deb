/** What one request may do when it runs in a worker process that its parent supervises. */
module ProcessSpec {
  import opened Common
  import opened ProductionProtocol
  import opened SysctlManifests
  import opened TransactionModel
  import opened TransactionSpec

  const MAX_RESULT_BYTES := 131072

  /** What the parent hands on: a trusted result, or an error naming the backup it marked, if any. */
  datatype Served = Delivered(reply: Reply) | Refused(backupId: Option<BackupId>)

  /** The worker's side of one request: how it ended, the state it left, and the world in which it
      unlinked the recovery marker, if it did. */
  datatype Work = Work(end: End, left: State, cleared: Option<World>)

  /** What the parent meets on the outside: it was cancelled before it asked for a worker, none could be started,
      the request could not be handed over, or a worker ran. Of that one: whether a signal reached it, whether
      waiting for it or reading raised, whether it was killed, its exit code, the size of its output, whether
      that decodes, and whether the request was cancelled by the time the result was judged. */
  datatype Observed =
    | NotAsked
    | NotStarted
    | NotHandedOver
    | Ran(signalled: bool, broken: bool, forced: bool, code: int, size: nat, decodable: bool, cancelled: bool)

  /** A worker ran and ended by itself with code 0 and decodable output within the limit, and nobody cancelled. */
  ghost predicate Smooth(o: Observed) {
    && o.Ran? && !o.signalled && !o.broken && !o.forced && o.code == 0 && o.size <= MAX_RESULT_BYTES && o.decodable
    && !o.cancelled
  }

  /** The result of a worker that ended in `end` can be trusted: it was not killed, exited with code 0 and gave
      output that fits, decodes and answers this request, and a cancelled request is confirmed with the status
      of its reason. */
  ghost predicate Trustworthy(req: ProductionRequest, o: Observed, end: End, timedOut: bool)
    requires o.Ran?
  {
    && !o.broken && !o.forced && o.code == 0 && o.size <= MAX_RESULT_BYTES && o.decodable
    && end.Returned? && end.reply.requestId == req.requestId && end.reply.action == req.action
    && (o.cancelled ==> end.reply.status == if timedOut then TimedOut else Cancelled)
  }

  function UncertainId(req: ProductionRequest): BackupId {
    if req.action == RollbackBackup then RecoveryBackupId(req) else ApplyBackupId(req)
  }

  predicate Mutating(req: ProductionRequest) {
    req.action !in {Audit, VerifyModule}
  }

  /** `_mark_uncertain` by a parent that survives and gets the marker file created: an eligible backup
      of the request becomes recovery authority unless a marker already stands. */
  ghost predicate MarkedUncertain(req: ProductionRequest, pre: State, post: State) {
    && post.world == pre.world
    && post.store == pre.store
    && if Mutating(req) && Eligible(pre.store, UncertainId(req)) && pre.marker == Clear
       then post.marker in {Required(UncertainId(req)), Damaged}
       else post.marker == pre.marker
  }

  /** The request's own backup, if it is eligible and marked. */
  ghost function MarkedBackup(req: ProductionRequest, post: State): Option<BackupId> {
    if Mutating(req) && Eligible(post.store, UncertainId(req)) && post.marker == Required(UncertainId(req))
    then Some(UncertainId(req)) else None
  }

  ghost predicate NeverStarted(req: ProductionRequest, pre: State, served: Served, post: State) {
    post == pre && (served == Refused(None) || (served.Delivered? && IsStopped(req, served.reply, req.backupId)))
  }

  /** Either no worker ran, or one ran, and its result was delivered or it was marked uncertain. */
  ghost predicate ServeSpec(m: SysctlManifest, req: ProductionRequest, pre: State, work: Option<Work>,
                            served: Served, post: State)
    requires Hosts(pre.world, m.modules)
  {
    match work
    case None =>
      NeverStarted(req, pre, served, post) || (served == Refused(None) && MarkedUncertain(req, pre, post))
    case Some(w) =>
      ExecuteSpec(m, req, pre, w.end, w.left, w.cleared) && Handed(req, w, served, post)
  }

  /** A returned result is delivered as it is; whatever is refused is marked uncertain. */
  ghost predicate Handed(req: ProductionRequest, w: Work, served: Served, post: State) {
    match served
    case Delivered(reply) => w.end == Returned(reply) && post == w.left
    case Refused(_) => MarkedUncertain(req, w.left, post)
  }
}
