/** The race for exited children between `start_process`, `popen` and the SIGCHLD handler.

    Threads and the kernel take one step at a time, in any order.  A child that exits
    becomes a zombie and marks SIGCHLD pending; there is one mark, however many exits.
    Any thread outside the handler can take the mark and enter it.  A pid is in use
    until its child is reaped and may then be given to a new child. */
module Reaper {
  import opened Options

  datatype Status = Exited(code: int) | Signaled

  datatype Life = Running | Zombie(status: Status) | Reaped

  datatype Child = Child(pid: nat, life: Life)

  /** What a thread that forked will do: check once (`start_process`) or wait (`pclose`). */
  datatype Wait = Wait(child: nat, blocking: bool)

  datatype Cause = ByHandler | ByWait

  datatype Reap = Reap(child: nat, status: Status, cause: Cause, thread: nat)

  /** The reply of `start_process`: the child lives as far as it knows, or it has ended.
      `own` is the child forked, `reaped` the entry of the reap log made by its check. */
  datatype Reply = StillThere(thread: nat, own: nat) | Ended(thread: nat, own: nat, status: Status, reaped: nat)

  datatype State = State(
    children: seq<Child>,
    pending: bool,
    handlers: set<nat>,
    waiting: map<nat, Wait>,
    reaps: seq<Reap>,
    replies: seq<Reply>)

  datatype Step =
    | Fork(thread: nat, pid: nat, blocking: bool)
    | Exit(child: nat, status: Status)
    | Deliver(thread: nat)
    | HandlerReap(thread: nat, child: nat)
    | HandlerDone(thread: nat)
    | Check(thread: nat)

  const INIT: State := State([], false, {}, map[], [], [])

  predicate IsZombie(cs: seq<Child>, c: nat) {
    c < |cs| && cs[c].life.Zombie?
  }

  predicate NoZombie(cs: seq<Child>) {
    forall c :: 0 <= c < |cs| ==> !cs[c].life.Zombie?
  }

  predicate InUse(cs: seq<Child>, c: nat, pid: nat) {
    c < |cs| && cs[c].pid == pid && cs[c].life != Reaped
  }

  /** The child that `waitpid(pid)` finds. */
  function Find(cs: seq<Child>, pid: nat): (r: Option<nat>)
    ensures r.Some? ==> InUse(cs, r.value, pid)
    ensures r.None? ==> forall c: nat :: c < |cs| ==> !InUse(cs, c, pid)
  {
    if cs == [] then None
    else
      var r := Find(cs[..|cs| - 1], pid);
      if r.Some? then r
      else if InUse(cs, |cs| - 1, pid) then Some(|cs| - 1)
      else
        assert forall c: nat :: c < |cs| - 1 ==> (InUse(cs, c, pid) <==> InUse(cs[..|cs| - 1], c, pid));
        None
  }

  predicate Enabled(s: State, step: Step) {
    match step
    case Fork(t, pid, _) => t !in s.handlers && t !in s.waiting && Find(s.children, pid).None?
    case Exit(c, _) => c < |s.children| && s.children[c].life == Running
    case Deliver(t) => s.pending && t !in s.handlers
    case HandlerReap(t, c) => t in s.handlers && IsZombie(s.children, c)
    case HandlerDone(t) => t in s.handlers && NoZombie(s.children)
    case Check(t) =>
      && t !in s.handlers && t in s.waiting && s.waiting[t].child < |s.children|
      && (s.waiting[t].blocking ==>
            var r := Find(s.children, s.children[s.waiting[t].child].pid);
            r.Some? ==> s.children[r.value].life != Running)
  }

  function ReapChild(s: State, c: nat, cause: Cause, t: nat): State
    requires IsZombie(s.children, c)
  {
    s.(children := s.children[c := s.children[c].(life := Reaped)],
       reaps := s.reaps + [Reap(c, s.children[c].life.status, cause, t)])
  }

  function AddReply(s: State, blocking: bool, r: Reply): State {
    if blocking then s else s.(replies := s.replies + [r])
  }

  function Next(s: State, step: Step): State
    requires Enabled(s, step)
  {
    match step
    case Fork(t, pid, blocking) =>
      s.(children := s.children + [Child(pid, Running)], waiting := s.waiting[t := Wait(|s.children|, blocking)])
    case Exit(c, status) =>
      s.(children := s.children[c := s.children[c].(life := Zombie(status))], pending := true)
    case Deliver(t) => s.(pending := false, handlers := s.handlers + {t})
    case HandlerReap(t, c) => ReapChild(s, c, ByHandler, t)
    case HandlerDone(t) => s.(handlers := s.handlers - {t})
    case Check(t) =>
      var Wait(own, blocking) := s.waiting[t];
      var r := Find(s.children, s.children[own].pid);
      var s' := s.(waiting := s.waiting - {t});
      if r.Some? && IsZombie(s.children, r.value) then
        AddReply(ReapChild(s', r.value, ByWait, t), blocking,
                 Ended(t, own, s.children[r.value].life.status, |s.reaps|))
      else AddReply(s', blocking, StillThere(t, own))
  }

  /** A run is a sequence of steps, each enabled where it is taken. */
  predicate Legal(s: State, steps: seq<Step>)
    decreases |steps|
  {
    steps == [] || (Enabled(s, steps[0]) && Legal(Next(s, steps[0]), steps[1..]))
  }

  function After(s: State, steps: seq<Step>): State
    requires Legal(s, steps)
    decreases |steps|
  {
    if steps == [] then s else After(Next(s, steps[0]), steps[1..])
  }

  // ----- What every step keeps -----

  ghost predicate ZombiesNoticed(s: State) {
    NoZombie(s.children) || s.pending || s.handlers != {}
  }

  ghost predicate PidsDistinct(cs: seq<Child>) {
    forall c, d :: 0 <= c < d < |cs| && cs[c].life != Reaped && cs[d].life != Reaped ==> cs[c].pid != cs[d].pid
  }

  ghost predicate WaitsKnown(s: State) {
    forall t :: t in s.waiting ==> s.waiting[t].child < |s.children|
  }

  /** The log holds exactly the reaped children, each once. */
  ghost predicate LogExact(s: State) {
    && (forall i :: 0 <= i < |s.reaps| ==>
          s.reaps[i].child < |s.children| && s.children[s.reaps[i].child].life == Reaped)
    && (forall i, j :: 0 <= i < j < |s.reaps| ==> s.reaps[i].child != s.reaps[j].child)
    && (forall c :: 0 <= c < |s.children| && s.children[c].life == Reaped ==> LoggedAs(s.reaps, c))
  }

  ghost predicate LoggedAs(reaps: seq<Reap>, c: nat) {
    exists i :: 0 <= i < |reaps| && reaps[i].child == c
  }

  /** Child `c` is among the first `n` entries of the log. */
  ghost predicate ReapedBefore(reaps: seq<Reap>, n: nat, c: nat) {
    exists i :: 0 <= i < |reaps| && i < n && reaps[i].child == c
  }

  /** A reply that a child has ended rests on a reap made by the replying thread's own wait for
      that pid; if it is not the reap of the child forked, that one had been reaped before. */
  ghost predicate ReplyJustified(s: State, r: Reply) {
    && r.own < |s.children|
    && (r.Ended? ==>
          && r.reaped < |s.reaps|
          && s.reaps[r.reaped] == Reap(s.reaps[r.reaped].child, r.status, ByWait, r.thread)
          && s.reaps[r.reaped].child < |s.children|
          && s.children[s.reaps[r.reaped].child].pid == s.children[r.own].pid
          && (s.reaps[r.reaped].child != r.own ==> ReapedBefore(s.reaps, r.reaped, r.own)))
  }

  ghost predicate RepliesJustified(s: State) {
    forall i :: 0 <= i < |s.replies| ==> ReplyJustified(s, s.replies[i])
  }

  /** No two replies rest on the same reap. */
  ghost predicate RepliesDistinct(s: State) {
    forall i, j :: 0 <= i < j < |s.replies| && s.replies[i].Ended? && s.replies[j].Ended? ==>
      s.replies[i].reaped != s.replies[j].reaped
  }

  ghost predicate Inv(s: State) {
    && ZombiesNoticed(s) && PidsDistinct(s.children) && WaitsKnown(s) && LogExact(s)
    && RepliesJustified(s) && RepliesDistinct(s)
  }

  lemma ReapKeeps(s: State, c: nat, cause: Cause, t: nat)
    requires LogExact(s) && PidsDistinct(s.children) && IsZombie(s.children, c)
    ensures var s' := ReapChild(s, c, cause, t);
            LogExact(s') && PidsDistinct(s'.children) && (NoZombie(s.children) ==> NoZombie(s'.children))
  {
    var s' := ReapChild(s, c, cause, t);
    assert s'.reaps[|s.reaps|].child == c;
    forall d | 0 <= d < |s'.children| && s'.children[d].life == Reaped
      ensures LoggedAs(s'.reaps, d)
    {
      if d != c {
        assert LoggedAs(s.reaps, d);
        var i :| 0 <= i < |s.reaps| && s.reaps[i].child == d;
        assert s'.reaps[i].child == d;
      }
    }
  }

  lemma RepliesKeep(s: State, s': State)
    requires RepliesJustified(s) && s.replies == s'.replies && s.reaps <= s'.reaps
    requires |s.children| <= |s'.children|
    requires forall c :: 0 <= c < |s.children| ==> s.children[c].pid == s'.children[c].pid
    ensures RepliesJustified(s')
  {
    forall i | 0 <= i < |s'.replies| ensures ReplyJustified(s', s'.replies[i]) {
      var r := s.replies[i];
      assert ReplyJustified(s, r);
      if r.Ended? && s.reaps[r.reaped].child != r.own {
        var j :| 0 <= j < |s.reaps| && j < r.reaped && s.reaps[j].child == r.own;
        assert s'.reaps[j].child == r.own;
      }
    }
  }

  lemma LogKeeps(s: State, s': State)
    requires LogExact(s) && s.reaps == s'.reaps && |s.children| <= |s'.children|
    requires forall c :: 0 <= c < |s.children| ==> (s.children[c].life == Reaped <==> s'.children[c].life == Reaped)
    requires forall c :: |s.children| <= c < |s'.children| ==> s'.children[c].life != Reaped
    ensures LogExact(s')
  {
  }

  lemma AddReplyKeeps(s: State, blocking: bool, r: Reply)
    requires Inv(s) && ReplyJustified(s, r)
    requires r.Ended? ==> forall i :: 0 <= i < |s.replies| && s.replies[i].Ended? ==> s.replies[i].reaped < r.reaped
    ensures Inv(AddReply(s, blocking, r))
  {
    var s' := AddReply(s, blocking, r);
    forall i | 0 <= i < |s'.replies| ensures ReplyJustified(s', s'.replies[i]) {
      assert i < |s.replies| ==> ReplyJustified(s, s.replies[i]);
      assert ReplyJustified(s, r);
    }
  }

  lemma FindOwn(cs: seq<Child>, own: nat)
    requires PidsDistinct(cs) && own < |cs| && cs[own].life != Reaped
    ensures Find(cs, cs[own].pid) == Some(own)
  {
    assert InUse(cs, own, cs[own].pid);
  }

  /** If a wait for a child's pid finds another child, the child itself has been reaped. */
  lemma OtherFound(s: State, own: nat, found: nat, reaps: seq<Reap>)
    requires PidsDistinct(s.children) && LogExact(s) && own < |s.children| && s.reaps <= reaps
    requires Find(s.children, s.children[own].pid) == Some(found) && found != own
    ensures s.children[own].life == Reaped && ReapedBefore(reaps, |s.reaps|, own)
  {
    if s.children[own].life != Reaped {
      FindOwn(s.children, own);
    }
    assert LoggedAs(s.reaps, own);
    var i :| 0 <= i < |s.reaps| && s.reaps[i].child == own;
    assert reaps[i].child == own;
  }

  lemma CheckKeepsInv(s: State, t: nat)
    requires Inv(s) && Enabled(s, Check(t))
    ensures Inv(Next(s, Check(t)))
  {
    hide PidsDistinct, LogExact, ReapedBefore, Find;
    var Wait(own, blocking) := s.waiting[t];
    var r := Find(s.children, s.children[own].pid);
    var w := s.(waiting := s.waiting - {t});
    RepliesKeep(s, w);
    LogKeeps(s, w);
    if r.Some? && IsZombie(s.children, r.value) {
      ReapKeeps(w, r.value, ByWait, t);
      var k := ReapChild(w, r.value, ByWait, t);
      RepliesKeep(w, k);
      assert !NoZombie(s.children);
      if r.value != own {
        OtherFound(s, own, r.value, k.reaps);
      }
      forall i | 0 <= i < |k.replies| && k.replies[i].Ended? ensures k.replies[i].reaped < |s.reaps| {
        assert ReplyJustified(s, s.replies[i]);
      }
      AddReplyKeeps(k, blocking, Ended(t, own, s.children[r.value].life.status, |s.reaps|));
    } else {
      AddReplyKeeps(w, blocking, StillThere(t, own));
    }
  }

  lemma ForkKeepsInv(s: State, t: nat, pid: nat, blocking: bool)
    requires Inv(s) && Enabled(s, Fork(t, pid, blocking))
    ensures Inv(Next(s, Fork(t, pid, blocking)))
  {
    var s' := Next(s, Fork(t, pid, blocking));
    LogKeeps(s, s');
    RepliesKeep(s, s');
    forall c | 0 <= c < |s.children| && s.children[c].life != Reaped
      ensures s.children[c].pid != pid
    {
      assert !InUse(s.children, c, pid);
    }
  }

  lemma StepKeepsInv(s: State, step: Step)
    requires Inv(s) && Enabled(s, step)
    ensures Inv(Next(s, step))
  {
    var s' := Next(s, step);
    match step
    case Fork(t, pid, blocking) =>
      ForkKeepsInv(s, t, pid, blocking);
    case Exit(c, _) =>
      LogKeeps(s, s');
      RepliesKeep(s, s');
    case Deliver(t) =>
      RepliesKeep(s, s');
      assert t in s'.handlers;
    case HandlerReap(t, c) =>
      ReapKeeps(s, c, ByHandler, t);
      RepliesKeep(s, s');
    case HandlerDone(t) =>
      RepliesKeep(s, s');
    case Check(t) =>
      CheckKeepsInv(s, t);
  }

  lemma {:induction false} RunKeepsInv(s: State, steps: seq<Step>)
    requires Inv(s) && Legal(s, steps)
    ensures Inv(After(s, steps))
    decreases |steps|
  {
    if steps != [] {
      StepKeepsInv(s, steps[0]);
      RunKeepsInv(Next(s, steps[0]), steps[1..]);
    }
  }

  // ----- What a run leaves, told from its steps alone -----

  /** The pids of the children forked, in order. */
  function ForkPids(steps: seq<Step>): seq<nat> {
    if steps == [] then []
    else
      var front, last := ForkPids(steps[..|steps| - 1]), steps[|steps| - 1];
      if last.Fork? then front + [last.pid] else front
  }

  /** What a thread waits for: the child of its last fork, until it has checked. */
  function WaitsFor(steps: seq<Step>, t: nat): Option<Wait> {
    if steps == [] then None
    else
      var front, last := steps[..|steps| - 1], steps[|steps| - 1];
      if last.Fork? && last.thread == t then Some(Wait(|ForkPids(front)|, last.blocking))
      else if last == Check(t) then None
      else WaitsFor(front, t)
  }

  /** The thread and the child of each check of `start_process`, in order. */
  function Checked(steps: seq<Step>): seq<(nat, nat)> {
    if steps == [] then []
    else
      var front, last := steps[..|steps| - 1], steps[|steps| - 1];
      var w := if last.Check? then WaitsFor(front, last.thread) else None;
      if w.Some? && !w.value.blocking then Checked(front) + [(last.thread, w.value.child)] else Checked(front)
  }

  /** How child `c` exited, if it has. */
  function ExitOf(steps: seq<Step>, c: nat): Option<Status> {
    if steps == [] then None
    else
      var last := steps[|steps| - 1];
      if last.Exit? && last.child == c then Some(last.status) else ExitOf(steps[..|steps| - 1], c)
  }

  /** Whether a child has exited since the signal was last taken. */
  function SignalPending(steps: seq<Step>): bool {
    steps != [] &&
    var last := steps[|steps| - 1];
    last.Exit? || (!last.Deliver? && SignalPending(steps[..|steps| - 1]))
  }

  /** Whether a thread is in the handler: it has taken the signal and not ended since. */
  function InHandler(steps: seq<Step>, t: nat): bool {
    steps != [] &&
    var last := steps[|steps| - 1];
    last == Deliver(t) || (last != HandlerDone(t) && InHandler(steps[..|steps| - 1], t))
  }

  lemma {:induction false} LegalSnoc(s: State, front: seq<Step>, last: Step)
    requires Legal(s, front + [last])
    ensures Legal(s, front) && Enabled(After(s, front), last)
    ensures After(s, front + [last]) == Next(After(s, front), last)
    decreases |front|
  {
    hide Enabled, Next;
    var steps := front + [last];
    if front == [] {
      assert steps == [last] && steps[1..] == [];
    } else {
      assert steps[1..] == front[1..] + [last] && steps[0] == front[0];
      LegalSnoc(Next(s, front[0]), front[1..], last);
    }
  }

  /** The children, their lives and the threads' states, as the steps have made them. */
  ghost predicate ToldBy(s: State, steps: seq<Step>) {
    && |s.children| == |ForkPids(steps)|
    && (forall c :: 0 <= c < |s.children| ==> LifeToldBy(s.children[c], steps, c))
    && (forall i :: 0 <= i < |s.reaps| ==> ExitOf(steps, s.reaps[i].child) == Some(s.reaps[i].status))
    && (forall t: nat :: (if t in s.waiting then Some(s.waiting[t]) else None) == WaitsFor(steps, t))
    && (forall t: nat :: t in s.handlers <==> InHandler(steps, t))
    && (s.pending <==> SignalPending(steps))
  }

  ghost predicate LifeToldBy(child: Child, steps: seq<Step>, c: nat) {
    && c < |ForkPids(steps)| && child.pid == ForkPids(steps)[c]
    && (child.life == Running <==> ExitOf(steps, c).None?)
    && (child.life.Zombie? ==> ExitOf(steps, c) == Some(child.life.status))
  }

  /** The replies are those of the checks, each about the child its thread forked. */
  ghost predicate AnswersToldBy(replies: seq<Reply>, steps: seq<Step>) {
    && |replies| == |Checked(steps)|
    && forall i :: 0 <= i < |replies| ==> (replies[i].thread, replies[i].own) == Checked(steps)[i]
  }

  lemma StepTold(s: State, front: seq<Step>, last: Step)
    requires ToldBy(s, front) && LogExact(s) && Enabled(s, last)
    requires last.Fork? ==> ExitOf(front, |s.children|).None?
    ensures ToldBy(Next(s, last), front + [last])
  {
    var steps := front + [last];
    assert steps[..|steps| - 1] == front;
    forall c | 0 <= c < |Next(s, last).children| ensures LifeToldBy(Next(s, last).children[c], steps, c) {
      assert c < |s.children| ==> LifeToldBy(s.children[c], front, c);
    }
  }

  lemma StepAnswers(s: State, front: seq<Step>, last: Step)
    requires ToldBy(s, front) && AnswersToldBy(s.replies, front) && Enabled(s, last)
    ensures AnswersToldBy(Next(s, last).replies, front + [last])
  {
    var steps := front + [last];
    assert steps[..|steps| - 1] == front;
  }

  lemma {:induction false} NoExitYet(steps: seq<Step>, c: nat)
    requires Legal(INIT, steps) && c >= |After(INIT, steps).children|
    ensures ExitOf(steps, c).None?
    decreases |steps|
  {
    hide Legal, After, Find;
    if steps != [] {
      var front, last := steps[..|steps| - 1], steps[|steps| - 1];
      assert steps == front + [last];
      LegalSnoc(INIT, front, last);
      var s := After(INIT, front);
      assert |s.children| <= |Next(s, last).children|;
      NoExitYet(front, c);
    }
  }

  lemma InitTold()
    ensures ToldBy(INIT, []) && AnswersToldBy([], [])
  {
  }

  lemma {:induction false} RunTold(steps: seq<Step>)
    requires Legal(INIT, steps)
    ensures ToldBy(After(INIT, steps), steps) && AnswersToldBy(After(INIT, steps).replies, steps)
    decreases |steps|
  {
    hide Legal, ToldBy, AnswersToldBy, Next, Enabled;
    if steps == [] {
      InitTold();
    } else {
      var front, last := steps[..|steps| - 1], steps[|steps| - 1];
      assert steps == front + [last];
      LegalSnoc(INIT, front, last);
      RunTold(front);
      RunKeepsInv(INIT, front);
      NoExitYet(front, |After(INIT, front).children|);
      StepTold(After(INIT, front), front, last);
      StepAnswers(After(INIT, front), front, last);
    }
  }

  /** Which steps a run can hold, told from the steps before them: the handler is entered only
      for a pending signal, a child exits once, a thread checks only what it waits for, and a
      blocking wait goes on until its child has exited. */
  lemma StepsPossible(front: seq<Step>, last: Step)
    requires Legal(INIT, front + [last])
    ensures last.Fork? ==> WaitsFor(front, last.thread).None? && !InHandler(front, last.thread)
    ensures last.Exit? ==> last.child < |ForkPids(front)| && ExitOf(front, last.child).None?
    ensures last.Deliver? ==> SignalPending(front) && !InHandler(front, last.thread)
    ensures last.HandlerReap? ==>
              InHandler(front, last.thread) && last.child < |ForkPids(front)| && ExitOf(front, last.child).Some?
    ensures last.HandlerDone? ==> InHandler(front, last.thread)
    ensures last.Check? ==> WaitsFor(front, last.thread).Some? && !InHandler(front, last.thread)
    ensures last.Check? ==>
              var w := WaitsFor(front, last.thread).value;
              w.blocking ==> ExitOf(front, w.child).Some?
  {
    hide Legal, After;
    LegalSnoc(INIT, front, last);
    RunTold(front);
    RunKeepsInv(INIT, front);
    var s := After(INIT, front);
    if last.Check? && s.waiting[last.thread].blocking {
      var own := s.waiting[last.thread].child;
      if s.children[own].life == Running {
        FindOwn(s.children, own);
        assert false;
      }
      assert LifeToldBy(s.children[own], front, own);
    }
  }

  /** No child is waited for by two threads, or checked twice, or waited for after its check. */
  lemma {:induction false} EachChildOnce(steps: seq<Step>)
    ensures forall t :: WaitsFor(steps, t).Some? ==> WaitsFor(steps, t).value.child < |ForkPids(steps)|
    ensures forall i :: 0 <= i < |Checked(steps)| ==> Checked(steps)[i].1 < |ForkPids(steps)|
    ensures forall t, u :: t != u && WaitsFor(steps, t).Some? && WaitsFor(steps, u).Some? ==>
                             WaitsFor(steps, t).value.child != WaitsFor(steps, u).value.child
    ensures forall i, j :: 0 <= i < j < |Checked(steps)| ==> Checked(steps)[i].1 != Checked(steps)[j].1
    ensures forall i, t :: 0 <= i < |Checked(steps)| && WaitsFor(steps, t).Some? ==>
                             Checked(steps)[i].1 != WaitsFor(steps, t).value.child
    decreases |steps|
  {
    if steps != [] {
      EachChildOnce(steps[..|steps| - 1]);
    }
  }

  /** In every interleaving: no zombie is left without a pending signal or a running
      handler, every child is reaped at most once, with the status it exited with, and a
      reply that a child has ended rests on a reap of that pid by the replying thread's own
      wait, a different reap for each reply.  Each check is about the child that its
      thread forked last, and no child is waited for by two threads. */
  lemma Reachable(steps: seq<Step>)
    requires Legal(INIT, steps)
    ensures var s := After(INIT, steps);
            && (NoZombie(s.children) || s.pending || s.handlers != {})
            && (forall i, j :: 0 <= i < j < |s.reaps| ==> s.reaps[i].child != s.reaps[j].child)
            && (forall c :: 0 <= c < |s.children| ==> (s.children[c].life == Reaped <==> LoggedAs(s.reaps, c)))
            && RepliesJustified(s) && RepliesDistinct(s)
            && ToldBy(s, steps) && AnswersToldBy(s.replies, steps)
            && (forall t, u :: t != u && t in s.waiting && u in s.waiting ==> s.waiting[t].child != s.waiting[u].child)
            && (forall i, j :: 0 <= i < j < |s.replies| ==> s.replies[i].own != s.replies[j].own)
  {
    hide Legal, After;
    RunKeepsInv(INIT, steps);
    RunTold(steps);
    EachChildOnce(steps);
    var s := After(INIT, steps);
    forall t, u | t != u && t in s.waiting && u in s.waiting ensures s.waiting[t].child != s.waiting[u].child {
      assert WaitsFor(steps, t) == Some(s.waiting[t]) && WaitsFor(steps, u) == Some(s.waiting[u]);
    }
  }

  // ----- Lives only move forward -----

  function Age(l: Life): nat {
    match l case Running => 0 case Zombie(_) => 1 case Reaped => 2
  }

  /** A child keeps its pid, only ages, and as a zombie keeps its status. */
  lemma {:induction false} LivesMoveForward(s: State, steps: seq<Step>)
    requires Legal(s, steps)
    ensures var s' := After(s, steps);
            && |s.children| <= |s'.children| && s.reaps <= s'.reaps && s.replies <= s'.replies
            && forall c :: 0 <= c < |s.children| ==>
                 && s.children[c].pid == s'.children[c].pid
                 && Age(s.children[c].life) <= Age(s'.children[c].life)
                 && (Age(s.children[c].life) == Age(s'.children[c].life) ==> s.children[c].life == s'.children[c].life)
    decreases |steps|
  {
    if steps != [] {
      LivesMoveForward(Next(s, steps[0]), steps[1..]);
    }
  }

  // ----- Every zombie can be reaped -----

  function Zombies(cs: seq<Child>): nat {
    if cs == [] then 0
    else Zombies(cs[..|cs| - 1]) + (if cs[|cs| - 1].life.Zombie? then 1 else 0)
  }

  lemma {:induction false} ZombiesUpdate(cs: seq<Child>, c: nat)
    requires IsZombie(cs, c)
    ensures Zombies(cs) == Zombies(cs[c := cs[c].(life := Reaped)]) + 1
    decreases |cs|
  {
    var ds := cs[c := cs[c].(life := Reaped)];
    var n := |cs| - 1;
    if c < n {
      ZombiesUpdate(cs[..n], c);
      assert ds[..n] == cs[..n][c := cs[c].(life := Reaped)];
    } else {
      assert ds[..n] == cs[..n];
    }
  }

  predicate IsHandlerStep(step: Step, t: nat) {
    step == HandlerDone(t) || (step.HandlerReap? && step.thread == t)
  }

  /** A handler left to itself ends after one step for each zombie and one more, with no zombie left. */
  lemma {:induction false} HandlerDrains(s: State, t: nat) returns (steps: seq<Step>)
    requires t in s.handlers
    ensures Legal(s, steps) && |steps| == Zombies(s.children) + 1
    ensures forall i :: 0 <= i < |steps| ==> IsHandlerStep(steps[i], t)
    ensures NoZombie(After(s, steps).children) && t !in After(s, steps).handlers
    decreases Zombies(s.children)
  {
    if NoZombie(s.children) {
      NoZombies(s.children);
      steps := [HandlerDone(t)];
      assert steps[1..] == [];
    } else {
      var c: nat :| c < |s.children| && s.children[c].life.Zombie?;
      ZombiesUpdate(s.children, c);
      var s' := Next(s, HandlerReap(t, c));
      var rest := HandlerDrains(s', t);
      steps := [HandlerReap(t, c)] + rest;
      assert steps[1..] == rest;
    }
  }

  lemma {:induction false} NoZombies(cs: seq<Child>)
    requires NoZombie(cs)
    ensures Zombies(cs) == 0
  {
    if cs != [] {
      NoZombies(cs[..|cs| - 1]);
    }
  }

  /** From every reachable state, taking the pending signal and letting handlers run reaps every zombie. */
  lemma EveryZombieCanBeReaped(run: seq<Step>) returns (steps: seq<Step>)
    requires Legal(INIT, run)
    ensures Legal(After(INIT, run), steps) && NoZombie(After(After(INIT, run), steps).children)
    ensures forall i :: 0 <= i < |steps| ==> steps[i].Deliver? || steps[i].HandlerReap? || steps[i].HandlerDone?
  {
    RunKeepsInv(INIT, run);
    var s := After(INIT, run);
    if NoZombie(s.children) {
      steps := [];
    } else if s.handlers != {} {
      var t :| t in s.handlers;
      steps := HandlerDrains(s, t);
      assert forall i :: 0 <= i < |steps| ==> IsHandlerStep(steps[i], t);
    } else {
      var s' := Next(s, Deliver(0));
      var rest := HandlerDrains(s', 0);
      steps := [Deliver(0)] + rest;
      OneStep(s, Deliver(0), rest);
      assert forall i :: 0 <= i < |rest| ==> IsHandlerStep(rest[i], 0);
    }
  }

  // ----- What start_process reports -----

  /** A zombie that a wait for the pid of child `own` finds. */
  ghost predicate ZombieWithPid(cs: seq<Child>, own: nat) {
    own < |cs| && exists c :: 0 <= c < |cs| && IsZombie(cs, c) && cs[c].pid == cs[own].pid
  }

  lemma FindZombie(cs: seq<Child>, own: nat)
    requires PidsDistinct(cs) && own < |cs|
    ensures var r := Find(cs, cs[own].pid);
            r.Some? && IsZombie(cs, r.value) <==> ZombieWithPid(cs, own)
  {
    var r := Find(cs, cs[own].pid);
    if ZombieWithPid(cs, own) {
      var c :| 0 <= c < |cs| && IsZombie(cs, c) && cs[c].pid == cs[own].pid;
      FindOwn(cs, c);
    }
  }

  /** The reply of `start_process`, exactly: it says that the child has ended if and only if
      some zombie has the child's pid at the check, and it is about another child if and
      only if the child forked has been reaped already and its pid is a zombie's again.
      Otherwise the reply is that the child was started, whether it still runs or not. */
  lemma CheckExact(run: seq<Step>, t: nat)
    requires Legal(INIT, run) && Enabled(After(INIT, run), Check(t)) && !After(INIT, run).waiting[t].blocking
    ensures WaitsFor(run, t) == Some(After(INIT, run).waiting[t])
    ensures var s := After(INIT, run);
            var own := WaitsFor(run, t).value.child;
            var s' := Next(s, Check(t));
            && |s'.replies| == |s.replies| + 1
            && var r := s'.replies[|s.replies|];
            && r.own == own && r.thread == t
            && (r.Ended? <==> ZombieWithPid(s.children, own))
            && (r.Ended? && s'.reaps[r.reaped].child == own <==> IsZombie(s.children, own))
            && (r.Ended? && s'.reaps[r.reaped].child != own <==>
                  s.children[own].life == Reaped && ZombieWithPid(s.children, own))
            && (r == StillThere(t, own) <==>
                  s.children[own].life == Running
                  || (s.children[own].life == Reaped && !ZombieWithPid(s.children, own)))
            && (r.Ended? ==> s'.reaps == s.reaps + [Reap(s'.reaps[r.reaped].child, r.status, ByWait, t)]
                             && r.reaped == |s.reaps|
                             && s.children[s'.reaps[r.reaped].child].life == Zombie(r.status))
  {
    hide Legal, After;
    RunTold(run);
    RunKeepsInv(INIT, run);
    var s := After(INIT, run);
    var own := s.waiting[t].child;
    FindZombie(s.children, own);
    if s.children[own].life != Reaped {
      FindOwn(s.children, own);
    }
  }

  /** In every run, a reply that a child has ended is about the child forked if and only if
      that child had not been reaped before; so always, while no pid is given out twice. */
  lemma EndedIsOwn(steps: seq<Step>, i: nat)
    requires Legal(INIT, steps) && i < |After(INIT, steps).replies| && After(INIT, steps).replies[i].Ended?
    ensures |Checked(steps)| == |After(INIT, steps).replies|
    ensures var s := After(INIT, steps);
            var r := s.replies[i];
            && (r.thread, r.own) == Checked(steps)[i]
            && r.reaped < |s.reaps| && s.reaps[r.reaped].cause == ByWait && s.reaps[r.reaped].thread == r.thread
            && (s.reaps[r.reaped].child == r.own <==> !ReapedBefore(s.reaps, r.reaped, r.own))
            && (NoPidTwice(s.children) ==> s.reaps[r.reaped].child == r.own)
  {
    hide Legal, After;
    RunTold(steps);
    RunKeepsInv(INIT, steps);
    var s := After(INIT, steps);
    assert ReplyJustified(s, s.replies[i]);
  }

  predicate NoPidTwice(cs: seq<Child>) {
    forall c, d :: 0 <= c < d < |cs| ==> cs[c].pid != cs[d].pid
  }

  /** A command that fails at once can be reported as started: the handler reaps it first. */
  lemma FailureReportedAsStarted() returns (steps: seq<Step>)
    ensures Legal(INIT, steps)
    ensures After(INIT, steps).replies == [StillThere(0, 0)]
    ensures After(INIT, steps).reaps == [Reap(0, Exited(1), ByHandler, 1)]
  {
    var s0 := INIT;
    var s1 := Next(s0, Fork(0, 500, false));
    var s2 := Next(s1, Exit(0, Exited(1)));
    var s3 := Next(s2, Deliver(1));
    var s4 := Next(s3, HandlerReap(1, 0));
    steps := [Fork(0, 500, false), Exit(0, Exited(1)), Deliver(1), HandlerReap(1, 0), Check(0)];
    var s5 := Next(s4, Check(0));
    OneStep(s4, Check(0), []);
    OneStep(s3, HandlerReap(1, 0), [Check(0)]);
    OneStep(s2, Deliver(1), [HandlerReap(1, 0), Check(0)]);
    OneStep(s1, Exit(0, Exited(1)), [Deliver(1), HandlerReap(1, 0), Check(0)]);
    OneStep(s0, Fork(0, 500, false), [Exit(0, Exited(1)), Deliver(1), HandlerReap(1, 0), Check(0)]);
  }

  /** With a pid given out again, a thread can reap and report another thread's child:
      thread 0 forked child 0, but its reply gives the exit code of child 1. */
  lemma OtherChildReported() returns (steps: seq<Step>)
    ensures Legal(INIT, steps)
    ensures After(INIT, steps).replies == [Ended(0, 0, Exited(7), 1)]
    ensures After(INIT, steps).reaps == [Reap(0, Exited(1), ByHandler, 2), Reap(1, Exited(7), ByWait, 0)]
  {
    var s4 := State([Child(500, Reaped)], false, {2}, map[0 := Wait(0, false)], [Reap(0, Exited(1), ByHandler, 2)], []);
    var more := SecondHalf(s4);
    var s0 := INIT;
    var s1 := Next(s0, Fork(0, 500, false));
    var s2 := Next(s1, Exit(0, Exited(1)));
    var s3 := Next(s2, Deliver(2));
    assert Next(s3, HandlerReap(2, 0)) == s4;
    OneStep(s3, HandlerReap(2, 0), more);
    more := [HandlerReap(2, 0)] + more;
    OneStep(s2, Deliver(2), more);
    more := [Deliver(2)] + more;
    OneStep(s1, Exit(0, Exited(1)), more);
    more := [Exit(0, Exited(1))] + more;
    OneStep(s0, Fork(0, 500, false), more);
    steps := [Fork(0, 500, false)] + more;
  }

  lemma SecondHalf(s4: State) returns (steps: seq<Step>)
    requires s4 == State([Child(500, Reaped)], false, {2}, map[0 := Wait(0, false)],
                         [Reap(0, Exited(1), ByHandler, 2)], [])
    ensures Legal(s4, steps)
    ensures After(s4, steps).replies == [Ended(0, 0, Exited(7), 1)]
    ensures After(s4, steps).reaps == s4.reaps + [Reap(1, Exited(7), ByWait, 0)]
  {
    var s5 := Next(s4, Fork(1, 500, false));
    var s6 := Next(s5, Exit(1, Exited(7)));
    var s7 := Next(s6, Check(0));
    steps := [Check(0)];
    OneStep(s6, Check(0), []);
    OneStep(s5, Exit(1, Exited(7)), steps);
    steps := [Exit(1, Exited(7))] + steps;
    OneStep(s4, Fork(1, 500, false), steps);
    steps := [Fork(1, 500, false)] + steps;
  }

  lemma OneStep(s: State, step: Step, rest: seq<Step>)
    requires Enabled(s, step) && Legal(Next(s, step), rest)
    ensures Legal(s, [step] + rest) && After(s, [step] + rest) == After(Next(s, step), rest)
  {
    assert ([step] + rest)[1..] == rest;
  }
}
