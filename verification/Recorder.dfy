/** The response recorder: what it reports and what the client behind it sees. */
module Recorder {
  import opened Options

  /** The codes net/http accepts; it panics on any other. */
  type StatusCode = code: int | 100 <= code <= 999 witness 200

  const OK: StatusCode := 200
  const SWITCHING_PROTOCOLS: StatusCode := 101
  const SERVICE_UNAVAILABLE: StatusCode := 503

  /** An interim response (section 15.2 of RFC 9110), which does not end the headers. */
  predicate Interim(code: int) {
    100 <= code < 200 && code != SWITCHING_PROTOCOLS
  }

  /********** The wrapped writer, as net/http behaves **********/

  /** The final status line on the wire, if any, and whether the connection was taken over. */
  datatype Wire = Wire(status: Option<int>, hijacked: bool)

  function SendStatus(w: Wire, code: int): Wire {
    if w.status.Some? || w.hijacked || Interim(code) then w else w.(status := Some(code))
  }

  /** A body byte or a flush sends an implied 200 first. */
  function SendBody(w: Wire): Wire {
    SendStatus(w, OK)
  }

  /** A handler that returns without a status line leaves the server to send an implied 200. */
  function AtReturn(w: Wire): Wire {
    SendBody(w)
  }

  /********** The recorder **********/

  /**
   * `supported` says whether the wrapped writer can flush or be taken over at all, `granted`
   * whether the takeover then succeeded.
   */
  datatype Op =
    | WriteHeader(code: StatusCode)
    | Write(count: nat)
    | Flush(supported: bool)
    | Hijack(supported: bool, granted: bool)

  /** `forwarded` are the status codes the recorder passed on. */
  datatype Rec = Rec(status: int, committed: bool, bytes: int, forwarded: seq<int>, wire: Wire)

  const FRESH: Rec := Rec(0, false, 0, [], Wire(None, false))

  function Header(r: Rec, code: int): Rec {
    if r.committed then r
    else Rec(code, true, r.bytes, r.forwarded + [code], SendStatus(r.wire, code))
  }

  function Apply(r: Rec, op: Op): Rec {
    match op
    case WriteHeader(code) => Header(r, code)
    case Write(count) => var h := Header(r, OK); h.(bytes := h.bytes + count, wire := SendBody(h.wire))
    case Flush(supported) => if supported then r.(wire := SendBody(r.wire)) else r
    case Hijack(supported, granted) =>
      if !supported then r
      else r.(committed := true, status := if r.status == 0 then SWITCHING_PROTOCOLS else r.status,
              wire := r.wire.(hijacked := r.wire.hijacked || granted))
  }

  function ApplyAll(r: Rec, ops: seq<Op>): Rec {
    if ops == [] then r else Apply(ApplyAll(r, ops[..|ops| - 1]), ops[|ops| - 1])
  }

  function Status(r: Rec): int {
    if r.status == 0 then OK else r.status
  }

  class ResponseRecorder {
    var status: int
    var committed: bool
    var bytes: int
    var wire: Wire
    ghost var forwarded: seq<int>

    ghost function State(): Rec
      reads this
    {
      Rec(status, committed, bytes, forwarded, wire)
    }

    constructor ()
      ensures State() == FRESH
    {
      status, committed, bytes, wire, forwarded := 0, false, 0, Wire(None, false), [];
    }

    method WriteHeader(code: StatusCode)
      modifies this
      ensures State() == Apply(old(State()), Op.WriteHeader(code))
    {
      if committed {
        return;
      }
      status := code;
      committed := true;
      wire := SendStatus(wire, code);
      forwarded := forwarded + [code];
    }

    method Write(count: nat)
      modifies this
      ensures State() == Apply(old(State()), Op.Write(count))
    {
      if !committed {
        WriteHeader(OK);
      }
      wire := SendBody(wire);
      bytes := bytes + count;
    }

    method Flush(supported: bool)
      modifies this
      ensures State() == Apply(old(State()), Op.Flush(supported))
    {
      if supported {
        wire := SendBody(wire);
      }
    }

    /** The commit comes before the takeover, so it stays when the takeover fails. */
    method Hijack(supported: bool, granted: bool) returns (ok: bool)
      modifies this
      ensures State() == Apply(old(State()), Op.Hijack(supported, granted)) && ok == (supported && granted)
    {
      if !supported {
        return false;
      }
      committed := true;
      if status == 0 {
        status := SWITCHING_PROTOCOLS;
      }
      wire := wire.(hijacked := wire.hijacked || granted);
      return granted;
    }

    /** The status that was forwarded, 101 after a takeover attempt, and 200 before any commit. */
    function CurrentStatus(): (code: int)
      reads this
      ensures CommittedOnce(State()) ==>
                code == if forwarded != [] then forwarded[0] else if committed then SWITCHING_PROTOCOLS else OK
    {
      if status == 0 then OK else status
    }

    /** Whatever a proxy attempt does to the recorder, operation by operation. */
    method Perform(ops: seq<Op>)
      modifies this
      ensures State() == ApplyAll(old(State()), ops)
    {
      for i := 0 to |ops|
        invariant State() == ApplyAll(old(State()), ops[..i])
      {
        assert ops[..i + 1][..i] == ops[..i];
        match ops[i]
        case WriteHeader(code) => WriteHeader(code);
        case Write(count) => Write(count);
        case Flush(supported) => Flush(supported);
        case Hijack(supported, granted) => var _ := Hijack(supported, granted);
      }
      assert ops[..|ops|] == ops;
    }
  }

  /********** Properties of every sequence of operations **********/

  /** At most one code is ever forwarded, and it is the one reported; none means a takeover. */
  ghost predicate CommittedOnce(r: Rec) {
    if !r.committed then r.forwarded == [] && r.status == 0 && !r.wire.hijacked
    else r.status != 0 && (r.forwarded == [r.status] || (r.forwarded == [] && r.status == SWITCHING_PROTOCOLS))
  }

  lemma {:induction false} OpsCommitOnce(r: Rec, ops: seq<Op>)
    requires CommittedOnce(r)
    ensures CommittedOnce(ApplyAll(r, ops))
    ensures r.committed ==> var s := ApplyAll(r, ops);
              s.committed && s.status == r.status && s.forwarded == r.forwarded
    ensures forall k :: 0 <= k < |ops| && ApplyAll(r, ops[..k]).committed ==> ApplyAll(r, ops).committed
  {
    if ops != [] {
      var init := ops[..|ops| - 1];
      OpsCommitOnce(r, init);
      forall k | 0 <= k < |ops| && ApplyAll(r, ops[..k]).committed ensures ApplyAll(r, ops).committed {
        assert k < |init| ==> init[..k] == ops[..k];
        assert k == |init| ==> ops[..k] == init;
      }
    }
  }

  /** The bytes of a sequence of operations. */
  function BytesIn(ops: seq<Op>): nat {
    if ops == [] then 0
    else BytesIn(ops[..|ops| - 1]) + if ops[|ops| - 1].Write? then ops[|ops| - 1].count else 0
  }

  /** The byte count is the sum over all writes, whatever else is done. */
  lemma {:induction false} BytesCounted(r: Rec, ops: seq<Op>)
    ensures ApplyAll(r, ops).bytes == r.bytes + BytesIn(ops)
  {
    if ops != [] {
      BytesCounted(r, ops[..|ops| - 1]);
    }
  }

  /********** When the report is what the client saw **********/

  /**
   * The operations the recorder gets wrong before the commit: a flush that sends an implied 200,
   * an interim status, and a takeover that fails.
   */
  predicate Misleading(op: Op) {
    || (op.Flush? && op.supported)
    || (op.WriteHeader? && Interim(op.code))
    || (op.Hijack? && op.supported && !op.granted)
  }

  predicate Tracked(r: Rec, op: Op) {
    r.committed || !Misleading(op)
  }

  ghost predicate AllTracked(r: Rec, ops: seq<Op>) {
    forall k :: 0 <= k < |ops| ==> Tracked(ApplyAll(r, ops[..k]), ops[k])
  }

  /** The status line on the wire is the reported one, and there is none before the commit. */
  ghost predicate Faithful(r: Rec) {
    if !r.committed then r.wire == Wire(None, false)
    else r.wire.status == Some(r.status) || (r.wire == Wire(None, true) && r.forwarded == [])
  }

  /** The report has been what the client saw at every moment of the run. */
  ghost predicate AlwaysFaithful(r: Rec, ops: seq<Op>) {
    forall k :: 0 <= k <= |ops| ==> Faithful(ApplyAll(r, ops[..k]))
  }

  /** One operation keeps report and wire together exactly when it is tracked. */
  lemma {:induction false} FaithfulStep(r: Rec, op: Op)
    requires Faithful(r) && CommittedOnce(r)
    ensures Faithful(Apply(r, op)) <==> Tracked(r, op)
  {
  }

  lemma {:induction false} ApplyNext(r: Rec, ops: seq<Op>, k: nat)
    requires k < |ops|
    ensures ApplyAll(r, ops[..k + 1]) == Apply(ApplyAll(r, ops[..k]), ops[k])
  {
    assert ops[..k + 1][..k] == ops[..k];
  }

  lemma {:induction false} TrackedUpTo(r: Rec, ops: seq<Op>, k: nat)
    requires Faithful(r) && CommittedOnce(r) && AllTracked(r, ops) && k <= |ops|
    ensures Faithful(ApplyAll(r, ops[..k]))
  {
    if k > 0 {
      TrackedUpTo(r, ops, k - 1);
      OpsCommitOnce(r, ops[..k - 1]);
      ApplyNext(r, ops, k - 1);
      FaithfulStep(ApplyAll(r, ops[..k - 1]), ops[k - 1]);
    }
  }

  /** Throughout a run the report is what the client saw exactly when every operation is tracked. */
  lemma {:induction false} ReportFaithful(r: Rec, ops: seq<Op>)
    requires Faithful(r) && CommittedOnce(r)
    ensures AlwaysFaithful(r, ops) <==> AllTracked(r, ops)
  {
    if AllTracked(r, ops) {
      forall k | 0 <= k <= |ops| ensures Faithful(ApplyAll(r, ops[..k])) {
        TrackedUpTo(r, ops, k);
      }
    }
    if AlwaysFaithful(r, ops) {
      forall k | 0 <= k < |ops| ensures Tracked(ApplyAll(r, ops[..k]), ops[k]) {
        OpsCommitOnce(r, ops[..k]);
        ApplyNext(r, ops, k);
        assert Faithful(ApplyAll(r, ops[..k])) && Faithful(ApplyAll(r, ops[..k + 1]));
        FaithfulStep(ApplyAll(r, ops[..k]), ops[k]);
      }
    }
  }

  /** Does anything: not a flush or a takeover that the wrapped writer does not support. */
  predicate Effective(op: Op) {
    (op.Flush? || op.Hijack?) ==> op.supported
  }

  /** The first operation that does anything. */
  function Lead(ops: seq<Op>): Option<Op> {
    if ops == [] then None else if Effective(ops[0]) then Some(ops[0]) else Lead(ops[1..])
  }

  /** It is not a misleading one. */
  predicate CleanStart(ops: seq<Op>) {
    Lead(ops).None? || !Misleading(Lead(ops).value)
  }

  lemma {:induction false} ApplyFront(r: Rec, ops: seq<Op>, k: nat)
    requires 0 < k <= |ops|
    ensures ApplyAll(r, ops[..k]) == ApplyAll(Apply(r, ops[0]), ops[1..][..k - 1])
  {
    assert ops[..k][..k - 1] == ops[..k - 1];
    assert ops[1..][..k - 1] == ops[1..k];
    if k > 1 {
      ApplyFront(r, ops, k - 1);
      assert ops[1..k][..k - 2] == ops[1..][..k - 2];
    } else {
      assert ops[..0] == [];
    }
  }

  lemma {:induction false} ApplyAllFront(r: Rec, ops: seq<Op>)
    requires ops != []
    ensures ApplyAll(r, ops) == ApplyAll(Apply(r, ops[0]), ops[1..])
  {
    ApplyFront(r, ops, |ops|);
    assert ops[..|ops|] == ops && ops[1..][..|ops| - 1] == ops[1..];
  }

  lemma {:induction false} ApplyConcat(r: Rec, a: seq<Op>, b: seq<Op>)
    ensures ApplyAll(r, a + b) == ApplyAll(ApplyAll(r, a), b)
  {
    if b == [] {
      assert a + b == a;
    } else {
      assert (a + b)[..|a + b| - 1] == a + b[..|b| - 1];
      ApplyConcat(r, a, b[..|b| - 1]);
    }
  }

  lemma {:induction false} TrackedFront(r: Rec, ops: seq<Op>)
    requires ops != []
    ensures AllTracked(r, ops) <==> Tracked(r, ops[0]) && AllTracked(Apply(r, ops[0]), ops[1..])
  {
    var s, rest := Apply(r, ops[0]), ops[1..];
    assert ops[..0] == [];
    if AllTracked(r, ops) {
      assert Tracked(ApplyAll(r, ops[..0]), ops[0]);
      forall k | 0 <= k < |rest| ensures Tracked(ApplyAll(s, rest[..k]), rest[k]) {
        ApplyFront(r, ops, k + 1);
        assert Tracked(ApplyAll(r, ops[..k + 1]), ops[k + 1]);
      }
    }
    if Tracked(r, ops[0]) && AllTracked(s, rest) {
      forall k | 0 <= k < |ops| ensures Tracked(ApplyAll(r, ops[..k]), ops[k]) {
        if k > 0 {
          ApplyFront(r, ops, k);
          assert Tracked(ApplyAll(s, rest[..k - 1]), rest[k - 1]);
        }
      }
    }
  }

  lemma {:induction false} CommittedTracked(r: Rec, ops: seq<Op>)
    requires CommittedOnce(r) && r.committed
    ensures AllTracked(r, ops)
  {
    forall k | 0 <= k < |ops| ensures Tracked(ApplyAll(r, ops[..k]), ops[k]) {
      OpsCommitOnce(r, ops[..k]);
    }
  }

  /** So it can be read off the operations alone: look at the first one that does anything. */
  lemma {:induction false} FaithfulFromOperations(r: Rec, ops: seq<Op>)
    requires Faithful(r) && CommittedOnce(r) && !r.committed
    ensures AlwaysFaithful(r, ops) <==> CleanStart(ops)
  {
    ReportFaithful(r, ops);
    if ops != [] {
      TrackedFront(r, ops);
      var s := Apply(r, ops[0]);
      if !Effective(ops[0]) {
        FaithfulFromOperations(r, ops[1..]);
        ReportFaithful(r, ops[1..]);
      } else if !Misleading(ops[0]) {
        CommittedTracked(s, ops[1..]);
      }
    }
  }

  /** What reaches the client first: a body or flush, before any takeover succeeds. */
  predicate SendsBody(ops: seq<Op>) {
    ops != [] &&
    (|| SendsBody(ops[..|ops| - 1])
     || (!TakenOver(ops[..|ops| - 1]) && ReachesWire(ops[|ops| - 1])))
  }

  predicate ReachesWire(op: Op) {
    op.Write? || (op.Flush? && op.supported)
  }

  predicate TakenOver(ops: seq<Op>) {
    exists k :: 0 <= k < |ops| && ops[k].Hijack? && ops[k].supported && ops[k].granted
  }

  /** The status line the client ends up with when the operations leave it to the server. */
  function LeftToServer(ops: seq<Op>): Option<int> {
    if TakenOver(ops) && !SendsBody(ops) then None else Some(200)
  }

  /**
   * After an interim status every final status is dropped: whatever follows, the interim code is
   * reported, and the client gets 200, with the first body byte or at the return, unless the
   * connection is taken over before.
   */
  lemma {:induction false} InterimSwallowsFinal(r: Rec, code: StatusCode, ops: seq<Op>)
    requires Faithful(r) && CommittedOnce(r) && !r.committed && 100 <= code < 200 && code != 101
    ensures var s := ApplyAll(Apply(r, WriteHeader(code)), ops);
            && s.committed && Status(s) == code && s.forwarded == [code]
            && s.wire == Wire(if SendsBody(ops) then Some(200) else None, TakenOver(ops))
            && AtReturn(s.wire).status == LeftToServer(ops)
            && !Faithful(s)
  {
    if ops != [] {
      InterimSwallowsFinal(r, code, ops[..|ops| - 1]);
    }
  }

  /** The example of an early hint and a not-found status, with a body or without. */
  lemma {:induction false} EarlyHintLosesNotFound(body: seq<Op>)
    requires body == [] || body == [Write(1)]
    ensures var s := ApplyAll(FRESH, [WriteHeader(103), WriteHeader(404)] + body);
            Status(s) == 103 && AtReturn(s.wire).status == Some(200)
  {
    var rest: seq<Op> := [WriteHeader(404)] + body;
    var all: seq<Op> := [WriteHeader(103), WriteHeader(404)] + body;
    assert all[0] == WriteHeader(103) && all[1..] == rest;
    ApplyAllFront(FRESH, all);
    InterimSwallowsFinal(FRESH, 103, rest);
    assert !TakenOver(rest);
  }

  /** After an early flush the client has its 200; the report ends right only if it is 200 as well. */
  lemma {:induction false} FlushFixesStatus(r: Rec, ops: seq<Op>)
    requires Faithful(r) && CommittedOnce(r) && !r.committed
    ensures var s := ApplyAll(Apply(r, Flush(true)), ops);
            && s.wire.status == Some(200)
            && (Faithful(s) <==> s.committed && s.status == 200)
  {
    if ops != [] {
      FlushFixesStatus(r, ops[..|ops| - 1]);
    }
  }

  /**
   * After a failed takeover 101 is reported, while the client gets 200 unless a later takeover
   * succeeds, which is the one way for the report to end right.
   */
  lemma {:induction false} FailedTakeoverReported(r: Rec, ops: seq<Op>)
    requires Faithful(r) && CommittedOnce(r) && !r.committed
    ensures var s := ApplyAll(Apply(r, Hijack(true, false)), ops);
            && s.committed && Status(s) == 101 && s.forwarded == []
            && s.wire == Wire(if SendsBody(ops) then Some(OK) else None, TakenOver(ops))
            && AtReturn(s.wire).status == LeftToServer(ops)
            && (Faithful(s) <==> !SendsBody(ops) && TakenOver(ops))
  {
    if ops != [] {
      FailedTakeoverReported(r, ops[..|ops| - 1]);
    }
  }

  /********** The report and the status the client ends up with **********/

  predicate Commits(op: Op) {
    op.WriteHeader? || op.Write? || (op.Hijack? && op.supported)
  }

  function FirstCommit(ops: seq<Op>): Option<Op> {
    if ops == [] then None else if Commits(ops[0]) then Some(ops[0]) else FirstCommit(ops[1..])
  }

  /** The status that the first commit stands for. */
  function CommitStatus(ops: seq<Op>): int {
    match FirstCommit(ops)
    case Some(WriteHeader(code)) => code
    case Some(Hijack(_, _)) => 101
    case _ => 200
  }

  lemma {:induction false} StatusFromOperations(r: Rec, ops: seq<Op>)
    requires CommittedOnce(r) && !r.committed
    ensures Status(ApplyAll(r, ops)) == CommitStatus(ops)
    decreases |ops|
  {
    if ops != [] {
      ApplyAllFront(r, ops);
      var s := Apply(r, ops[0]);
      if Commits(ops[0]) {
        OpsCommitOnce(s, ops[1..]);
      } else {
        StatusFromOperations(s, ops[1..]);
      }
    }
  }

  /** A status line is final, and so is a takeover. */
  lemma {:induction false} WireSettled(r: Rec, ops: seq<Op>)
    requires r.wire.status.Some? || r.wire.hijacked
    ensures var w := ApplyAll(r, ops).wire; w.status == r.wire.status && (r.wire.hijacked ==> w.hijacked)
  {
    if ops != [] {
      WireSettled(r, ops[..|ops| - 1]);
    }
  }

  /**
   * The operations after which the reported status is the client's: nothing at all, a final
   * status or a body first, or a flush first and a commit that stands for 200.
   */
  predicate Agreeing(ops: seq<Op>) {
    match Lead(ops)
    case None => true
    case Some(WriteHeader(code)) => code == 101 || code >= 200
    case Some(Write(_)) => true
    case Some(Flush(_)) => CommitStatus(ops) == 200
    case Some(Hijack(_, _)) => false
  }

  /** Once the handler has returned, the client has the reported status exactly in those cases. */
  lemma {:induction false} ReportedIsClients(r: Rec, ops: seq<Op>)
    requires Faithful(r) && CommittedOnce(r) && !r.committed
    ensures var s := ApplyAll(r, ops);
            AtReturn(s.wire).status == Some(Status(s)) <==> Agreeing(ops)
  {
    if ops != [] {
      ApplyAllFront(r, ops);
      if Effective(ops[0]) {
        LeadDecides(r, ops[0], ops[1..]);
        StatusFromOperations(r, ops);
      } else {
        ReportedIsClients(r, ops[1..]);
      }
    }
  }

  lemma {:induction false} LeadDecides(r: Rec, op: Op, rest: seq<Op>)
    requires Faithful(r) && CommittedOnce(r) && !r.committed && Effective(op)
    ensures var s := ApplyAll(Apply(r, op), rest);
            AtReturn(s.wire).status == Some(Status(s)) <==>
            match op
            case WriteHeader(code) => !Interim(code)
            case Write(_) => true
            case Flush(_) => Status(s) == OK
            case Hijack(_, _) => false
  {
    var s := Apply(r, op);
    if op.WriteHeader? && Interim(op.code) {
      InterimSwallowsFinal(r, op.code, rest);
    } else if op.Hijack? && !op.granted {
      FailedTakeoverReported(r, rest);
    } else {
      WireSettled(s, rest);
      if !op.Flush? {
        OpsCommitOnce(s, rest);
      }
    }
  }
}
