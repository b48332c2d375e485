/** The streaming chain verifier: one pass over a source that may be out of
    order, redelivered, damaged or a fragment, with one bounded look-ahead map.

    The functions give the verifier as a machine over its state; the methods run
    it the way the source does and are proved equal to the functions. */
module ChainVerify {
  import opened Prelude
  import opened AuditRecord

  datatype Kind =
    | Altered | Broken | Gap | OutOfOrder | NotGenesis | NotAnchored
    | MixedInstalls | ClockWentBack | Unreadable

  datatype Problem = Problem(seqNo: int, kind: Kind)

  datatype Anchor = Anchor(seqNo: int, hash: string)

  datatype Opts = Opts(requireGenesis: bool, anchor: Option<Anchor>)

  datatype Result = Result(
    records: int,
    firstSeq: int,
    lastSeq: int,
    brk: Option<Problem>,
    warnings: seq<Problem>,
    fragment: bool,
    anchored: bool,
    firstPrevHash: string)
  {
    predicate OK() { brk.None? }
  }

  /** One step of the source: a record, or something that could not be read as one. */
  datatype Item = Line(r: Rec) | Damage

  const EMPTY := Result(0, 0, 0, None, [], false, false, "")

  /** What a second line for one sequence number turns out to be. */
  datatype Sameness = Copy | Other | Forged(p: Problem)

  function SameRecord(compute: Hasher, a: Rec, b: Rec): Sameness {
    match compute(b)
    case None => Forged(Problem(b.seqNo, Unreadable))
    case Some(computed) =>
      if computed != b.hash then Forged(Problem(b.seqNo, Altered))
      else if a.hash == b.hash then Copy
      else Other
  }

  datatype Admission = Hold | Absorb | Refuse(p: Problem)

  function Judge(same: Sameness, seqNo: int): Admission {
    match same
    case Forged(p) => Refuse(p)
    case Copy => Absorb
    case Other => Refuse(Problem(seqNo, OutOfOrder))
  }

  /** prev is the last record consumed; None until the first one is. */
  datatype State = State(
    rest: seq<Item>,
    pending: map<int, Rec>,
    prev: Option<Rec>,
    next: int,
    damaged: bool,
    res: Result)

  /** What reading r does: hold it, absorb it as a redelivery, or stop. */
  function Admit(compute: Hasher, s: State, r: Rec): Admission {
    if r.seqNo in s.pending then
      var held := s.pending[r.seqNo];
      if held.install != r.install then Refuse(Problem(r.seqNo, MixedInstalls))
      else Judge(SameRecord(compute, held, r), r.seqNo)
    else if s.prev.Some? && r.seqNo < s.next then
      if r.seqNo == s.prev.value.seqNo then Judge(SameRecord(compute, s.prev.value, r), r.seqNo)
      else Refuse(Problem(r.seqNo, OutOfOrder))
    else Hold
  }

  function Stop(s: State, p: Problem): State {
    s.(res := s.res.(brk := Some(p)))
  }

  function Read(compute: Hasher, s: State): State
    requires s.rest != [] && s.rest[0].Line?
  {
    var r := s.rest[0].r;
    var s' := s.(rest := s.rest[1..]);
    match Admit(compute, s, r)
    case Hold => s'.(pending := s.pending[r.seqNo := r])
    case Absorb => s'
    case Refuse(p) => Stop(s', p)
  }

  /** Reads until window records are held, the source ends, is damaged, or a
      problem is found. */
  function Fill(compute: Hasher, window: nat, s: State): (t: State)
    requires s.res.OK()
    ensures |t.rest| + |t.pending| <= |s.rest| + |s.pending|
    ensures t.prev == s.prev && t.next == s.next
    ensures t.res.OK() ==> t.res == s.res
    ensures t.res.OK() ==> |t.pending| >= window || t.rest == [] || t.damaged
    decreases |s.rest|
  {
    if |s.pending| >= window || s.rest == [] then s
    else if s.rest[0].Damage? then s.(rest := s.rest[1..], damaged := true)
    else
      var t := Read(compute, s);
      assert Admit(compute, s, s.rest[0].r).Hold? ==> |t.pending| == |s.pending| + 1;
      if t.res.OK() then Fill(compute, window, t) else t
  }

  lemma ReadRest(compute: Hasher, s: State)
    requires s.rest != [] && s.rest[0].Line?
    ensures Read(compute, s).rest == s.rest[1..]
  {
    hide Admit;
  }

  lemma FillStep(compute: Hasher, window: nat, s: State)
    requires s.res.OK() && |s.pending| < window && s.rest != [] && s.rest[0].Line?
    ensures var t := Read(compute, s); Fill(compute, window, s) == if t.res.OK() then Fill(compute, window, t) else t
  {
    hide Read;
  }

  /** How the first record is received: the result it opens, with brk set when
      it may not come first. */
  function Open(opts: Opts, first: Rec): Result {
    if opts.anchor.Some? then
      if first.seqNo != opts.anchor.value.seqNo + 1 || first.prevHash != opts.anchor.value.hash
      then EMPTY.(brk := Some(Problem(first.seqNo, NotAnchored)))
      else EMPTY.(anchored := true, fragment := first.seqNo != 1,
                  firstSeq := first.seqNo, firstPrevHash := first.prevHash)
    else if first.seqNo == 1 || opts.requireGenesis then
      if first.seqNo != 1 || first.prevHash != GENESIS
      then EMPTY.(brk := Some(Problem(first.seqNo, NotGenesis)))
      else EMPTY.(firstSeq := first.seqNo, firstPrevHash := first.prevHash)
    else EMPTY.(fragment := true, firstSeq := first.seqNo, firstPrevHash := first.prevHash)
  }

  /** Why r may not follow prev, if it may not. */
  function Fault(compute: Hasher, prev: Option<Rec>, r: Rec): Option<Problem> {
    if prev.Some? && r.install != prev.value.install then Some(Problem(r.seqNo, MixedInstalls))
    else if prev.Some? && r.prevHash != prev.value.hash then Some(Problem(r.seqNo, Broken))
    else match compute(r)
      case None => Some(Problem(r.seqNo, Unreadable))
      case Some(computed) => if computed != r.hash then Some(Problem(r.seqNo, Altered)) else None
  }

  /** The result after consuming r behind prev: one record more, and a warning
      if the clock went back. */
  function Tally(res: Result, prev: Option<Rec>, r: Rec): Result {
    res.(records := res.records + 1, lastSeq := r.seqNo,
         warnings := res.warnings +
           if prev.Some? && r.ts < prev.value.ts then [Problem(r.seqNo, ClockWentBack)] else [])
  }

  /** The verdict once next is not held: the source ran out, was damaged, or has a hole. */
  function Finish(s: State): Result {
    if s.damaged then s.res.(brk := Some(Problem(s.next, Unreadable)))
    else if s.pending != map[] then s.res.(brk := Some(Problem(s.next, Gap)))
    else s.res
  }

  function Consume(s: State): State
    requires s.next in s.pending
  {
    var r := s.pending[s.next];
    s.(pending := s.pending - {s.next}, prev := Some(r), next := s.next + 1,
       res := Tally(s.res, s.prev, r))
  }

  function Run(compute: Hasher, window: nat, s: State): Result
    requires s.res.OK()
    decreases |s.rest| + |s.pending|
  {
    if s.next !in s.pending then Finish(s)
    else
      var fault := Fault(compute, s.prev, s.pending[s.next]);
      if fault.Some? then s.res.(brk := fault)
      else
        var c := Consume(s);
        PendingShrinks(s.pending, s.next);
        var t := Fill(compute, window, c);
        if t.res.OK() then Run(compute, window, t) else t.res
  }

  lemma PendingShrinks(m: map<int, Rec>, k: int)
    requires k in m
    ensures |m - {k}| == |m| - 1
  {
    assert (m - {k}).Keys == m.Keys - {k};
  }

  function Start(items: seq<Item>): State {
    State(items, map[], None, 0, false, EMPTY)
  }

  /** The state in which the first record has been chosen: the lowest one held. */
  function Begin(opts: Opts, s: State): State
    requires s.pending != map[]
  {
    var start := Min(s.pending.Keys);
    s.(next := start, res := Open(opts, s.pending[start]))
  }

  function Verify(compute: Hasher, window: nat, items: seq<Item>, opts: Opts): Result {
    var s := Fill(compute, window, Start(items));
    if !s.res.OK() then s.res
    else if s.pending == map[] then
      if s.damaged then EMPTY.(brk := Some(Problem(1, Unreadable))) else EMPTY
    else
      var t := Begin(opts, s);
      if t.res.OK() then Run(compute, window, t) else t.res
  }

  // ---------------------------------------------------------------------
  // The verifier as the source runs it.

  predicate Positive(items: seq<Item>) {
    forall i | 0 <= i < |items| && items[i].Line? :: items[i].r.seqNo >= 1
  }

  /** The smallest key held, found by one pass in whatever order the map yields;
      0 stands for "none seen yet", so keys must be positive. */
  method Lowest(pending: map<int, Rec>) returns (out: int)
    requires forall k | k in pending :: k >= 1
    ensures pending == map[] ==> out == 0
    ensures pending != map[] ==> out == Min(pending.Keys)
  {
    out := 0;
    var todo := pending.Keys;
    while todo != {}
      invariant todo <= pending.Keys
      invariant out == 0 ==> todo == pending.Keys
      invariant out != 0 ==> out in pending && forall k | k in pending && k !in todo :: out <= k
      decreases |todo|
    {
      assert (forall e :: e !in todo) ==> todo == {};
      var k :| k in todo;
      if out == 0 || k < out {
        out := k;
      }
      todo := todo - {k};
    }
    assert out == 0 ==> pending.Keys == {};
  }

  class Verifier {
    const compute: Hasher
    const window: nat
    var rest: seq<Item>
    var pending: map<int, Rec>
    var prev: Option<Rec>
    var install: string
    var started: bool
    var next: int
    var sourceErr: bool
    var res: Result

    constructor (compute: Hasher, window: nat, items: seq<Item>)
      requires Positive(items)
      ensures this.compute == compute && this.window == window
      ensures Valid() && Abs() == Start(items)
    {
      this.compute, this.window := compute, window;
      rest, pending, prev, install, started := items, map[], None, "", false;
      next, sourceErr, res := 0, false, EMPTY;
    }

    ghost predicate Valid()
      reads this
    {
      && started == prev.Some?
      && (started ==> install == prev.value.install)
      && Positive(rest)
      && (forall k | k in pending :: k >= 1 && pending[k].seqNo == k)
      && (started ==> (res.records > 0))
      && (!started ==> res.records == 0)
      && res.records >= 0
    }

    ghost function Abs(): State
      reads this
    {
      State(rest, pending, prev, next, sourceErr, res)
    }

    /** Receives the record read next; false once it is a problem. */
    method Receive() returns (ok: bool)
      requires Valid() && res.OK() && rest != [] && rest[0].Line?
      modifies this
      ensures Valid()
      ensures ok == res.OK()
      ensures Abs() == Read(compute, old(Abs()))
    {
      var r := rest[0].r;
      rest := rest[1..];
      if r.seqNo in pending {
        var held := pending[r.seqNo];
        if held.install != r.install {
          res := res.(brk := Some(Problem(r.seqNo, MixedInstalls)));
          return false;
        }
        var same := SameRecord(compute, held, r);
        if same.Forged? {
          res := res.(brk := Some(same.p));
          return false;
        }
        if same.Copy? {
          return true;
        }
        res := res.(brk := Some(Problem(r.seqNo, OutOfOrder)));
        return false;
      }
      if started && r.seqNo < next {
        if r.seqNo == prev.value.seqNo {
          var same := SameRecord(compute, prev.value, r);
          if same.Forged? {
            res := res.(brk := Some(same.p));
            return false;
          }
          if same.Copy? {
            return true;
          }
        }
        res := res.(brk := Some(Problem(r.seqNo, OutOfOrder)));
        return false;
      }
      pending := pending[r.seqNo := r];
      return true;
    }

    /** Reads ahead; false once a problem has been recorded. */
    method FillTo(n: nat) returns (ok: bool)
      requires Valid() && res.OK()
      modifies this
      ensures Valid()
      ensures Abs() == Fill(compute, n, old(Abs()))
      ensures ok == res.OK()
    {
      hide Read;
      while |pending| < n
        invariant Valid() && res.OK()
        invariant Fill(compute, n, Abs()) == Fill(compute, n, old(Abs()))
        decreases |rest|
      {
        if rest == [] {
          return true;
        }
        if rest[0].Damage? {
          rest, sourceErr := rest[1..], true;
          return true;
        }
        ghost var was := Abs();
        ok := Receive();
        FillStep(compute, n, was);
        ReadRest(compute, was);
        if !ok {
          return false;
        }
      }
      return true;
    }

    /** Receives the first record of the source; false when it may not come first. */
    method Enter(opts: Opts) returns (ok: bool)
      requires Valid() && res == EMPTY && pending != map[]
      modifies this
      ensures Valid()
      ensures Abs() == Begin(opts, old(Abs())) || !ok
      ensures res == Begin(opts, old(Abs())).res
      ensures ok == res.OK()
    {
      var start := Lowest(pending);
      var first := pending[start];
      if opts.anchor.Some? {
        if first.seqNo != opts.anchor.value.seqNo + 1 || first.prevHash != opts.anchor.value.hash {
          res := res.(brk := Some(Problem(first.seqNo, NotAnchored)));
          return false;
        }
        res := res.(anchored := true, fragment := first.seqNo != 1);
      } else if first.seqNo == 1 || opts.requireGenesis {
        if first.seqNo != 1 || first.prevHash != GENESIS {
          res := res.(brk := Some(Problem(first.seqNo, NotGenesis)));
          return false;
        }
      } else {
        res := res.(fragment := true);
      }
      next := start;
      res := res.(firstSeq := start, firstPrevHash := first.prevHash);
      return true;
    }

    /** Consumes the record the chain needs next; false when it does not chain. */
    method Advance() returns (ok: bool)
      requires Valid() && res.OK() && next in pending
      modifies this
      ensures Valid() || !ok
      ensures rest == old(rest)
      ensures match Fault(compute, old(prev), old(pending)[old(next)])
              case Some(p) => !ok && res == old(res).(brk := Some(p))
              case None => ok && res.OK() && Abs() == Consume(old(Abs()))
    {
      var r := pending[next];
      pending := pending - {next};
      if started {
        if r.install != install {
          res := res.(brk := Some(Problem(r.seqNo, MixedInstalls)));
          return false;
        } else if r.prevHash != prev.value.hash {
          res := res.(brk := Some(Problem(r.seqNo, Broken)));
          return false;
        }
      } else {
        install, started := r.install, true;
      }
      var computed := compute(r);
      if computed.None? {
        res := res.(brk := Some(Problem(r.seqNo, Unreadable)));
        return false;
      } else if computed.value != r.hash {
        res := res.(brk := Some(Problem(r.seqNo, Altered)));
        return false;
      }
      if res.records > 0 && r.ts < prev.value.ts {
        res := res.(warnings := res.warnings + [Problem(r.seqNo, ClockWentBack)]);
      }
      res := res.(records := res.records + 1, lastSeq := r.seqNo);
      prev, next := Some(r), next + 1;
      return true;
    }

    /** One verification pass over the source the verifier was built on. */
    method Pass(opts: Opts) returns (out: Result)
      requires Valid() && Abs() == Start(rest)
      modifies this
      ensures out == Verify(compute, window, old(rest), opts)
    {
      ghost var items := rest;
      var ok := FillTo(window);
      if !ok {
        return res;
      }
      if pending == map[] {
        if sourceErr {
          res := res.(brk := Some(Problem(1, Unreadable)));
        }
        return res;
      }
      ok := Enter(opts);
      if !ok {
        return res;
      }
      while next in pending
        invariant Valid() && res.OK()
        invariant Run(compute, window, Abs()) == Verify(compute, window, items, opts)
        decreases |rest| + |pending|
      {
        PendingShrinks(pending, next);
        ok := Advance();
        if !ok {
          return res;
        }
        ok := FillTo(window);
        if !ok {
          return res;
        }
      }
      if sourceErr {
        res := res.(brk := Some(Problem(next, Unreadable)));
      } else if pending != map[] {
        res := res.(brk := Some(Problem(next, Gap)));
      }
      return res;
    }
  }
}
