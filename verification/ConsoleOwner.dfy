/** The owner of a management console: it answers asynchronous notifications with commands of its own and multiplexes
    them with the callers' synchronous commands; replies carry no tag. Callers, the owner loop and the console
    interleave freely; each step below is one of their moves. */
module ConsoleOwner {
  import opened Text

  datatype Terminator = SingleLine | UntilEnd

  datatype Command = Command(line: string, until: Terminator)

  /** What a caller's reply channel can carry. */
  datatype Outcome = Reply(lines: seq<string>) | WriteFailed | CommandTimedOut | ConnectionLost

  /** Unattended: the owner wrote the command itself and nobody waits for the reply. */
  datatype Caller = Offering | Waiting | Got(outcome: Outcome) | SawClosed | GaveUp | Unattended

  /** Leaving: the loop returned, its deferred close of `done` has not run yet. */
  datatype Owner = Idle | Busy(id: nat, buf: seq<string>) | Leaving | Exited

  /** `commands` holds every call ever made and every command that the owner wrote in reply to a notification;
      `mailbox` the full reply channels, each of capacity one. `wire` holds the lines that the console sent and
      nobody read. `asked` are the commands that the console received and did not finish answering, and `sent` is
      what it sent of the answer to the first. `accepted` and `delivered` only record. */
  datatype State = State(
    commands: map<nat, Command>, callers: map<nat, Caller>, mailbox: map<nat, Outcome>, owner: Owner,
    wire: seq<string>, asked: seq<nat>, sent: seq<string>, accepted: set<nat>, delivered: map<nat, Outcome>)

  datatype Step =
    | Call(caller: nat, command: Command)
    | GiveUp(caller: nat)
    | SeeClosed(caller: nat)
    | Receive(caller: nat)
    | Accept(caller: nat, written: bool)
    | ReadLine(handled: bool)
    | Respond(id: nat, text: string)
    | CommandTimeout
    | Lose
    | Close
    | Emit(line: string)
    | Answer(line: string)

  const START := State(map[], map[], map[], Idle, [], [], [], {}, map[])

  predicate IsAsync(line: string) { HasPrefix(line, ">") }

  /** The two response terminators. */
  predicate Completes(until: Terminator, line: string) {
    match until
    case SingleLine => HasPrefix(line, "SUCCESS:") || HasPrefix(line, "ERROR:")
    case UntilEnd => Trim(line) == "END"
  }

  predicate Unresolved(s: State, id: nat) {
    id in s.callers && (s.callers[id].Offering? || s.callers[id].Waiting?)
  }

  /** The owner puts a result into a reply channel; a full channel would block it. */
  predicate CanDeliver(s: State) {
    s.owner.Busy? ==> s.owner.id !in s.mailbox
  }

  predicate Enabled(s: State, step: Step) {
    match step
    case Call(id, _) => id !in s.commands
    case GiveUp(id) => Unresolved(s, id)
    case SeeClosed(id) => Unresolved(s, id) && s.owner.Exited?
    case Receive(id) => id in s.callers && s.callers[id].Waiting? && id in s.mailbox
    case Accept(id, _) => s.owner.Idle? && id in s.callers && s.callers[id].Offering? && id !in s.mailbox
    case ReadLine(_) => (s.owner.Idle? || s.owner.Busy?) && s.wire != [] && CanDeliver(s)
    case Respond(id, _) =>
      (s.owner.Idle? || s.owner.Busy?) && s.wire != [] && IsAsync(s.wire[0]) && id !in s.commands
    case CommandTimeout => s.owner.Busy? && CanDeliver(s)
    case Lose => (s.owner.Idle? || s.owner.Busy?) && CanDeliver(s)
    case Close => s.owner.Leaving?
    case Emit(_) => true
    case Answer(_) => s.asked != []
  }

  function Deliver(s: State, outcome: Outcome, next: Owner): State
    requires s.owner.Busy?
  {
    s.(mailbox := s.mailbox[s.owner.id := outcome], delivered := s.delivered[s.owner.id := outcome], owner := next)
  }

  /** One pass of the owner loop over a line: notifications never reach the reply buffer, and a failing notification
      handler ends the loop without finishing the command. (`Respond` is the pass over a notification whose handler
      writes a reply.) */
  function Consume(s: State, line: string, handled: bool): State
    requires s.owner.Busy? ==> s.owner.id in s.commands
  {
    if IsAsync(line) then (if handled then s else s.(owner := Leaving))
    else if s.owner.Busy? then
      var buf := s.owner.buf + [line];
      if Completes(s.commands[s.owner.id].until, line) then Deliver(s, Reply(buf), Idle)
      else s.(owner := Busy(s.owner.id, buf))
    else s
  }

  predicate Wf(s: State) {
    && (s.owner.Busy? ==> s.owner.id in s.commands)
    && (forall i :: 0 <= i < |s.asked| ==> s.asked[i] in s.commands)
    && s.callers.Keys == s.commands.Keys
  }

  function Apply(s: State, step: Step): (t: State)
    requires Wf(s) && Enabled(s, step)
    ensures Wf(t)
  {
    match step
    case Call(id, c) => s.(commands := s.commands[id := c], callers := s.callers[id := Offering])
    case GiveUp(id) => s.(callers := s.callers[id := GaveUp])
    case SeeClosed(id) => s.(callers := s.callers[id := SawClosed])
    case Receive(id) => s.(callers := s.callers[id := Got(s.mailbox[id])], mailbox := s.mailbox - {id})
    case Accept(id, written) =>
      var w := s.(callers := s.callers[id := Waiting], accepted := s.accepted + {id});
      if written then w.(owner := Busy(id, []), asked := s.asked + [id])
      else Deliver(w.(owner := Busy(id, [])), WriteFailed, Leaving)
    case ReadLine(handled) => Consume(s.(wire := s.wire[1..]), s.wire[0], handled)
    case Respond(id, text) =>
      s.(wire := s.wire[1..], commands := s.commands[id := Command(text, SingleLine)],
         callers := s.callers[id := Unattended], asked := s.asked + [id])
    case CommandTimeout => Deliver(s, CommandTimedOut, Idle)
    case Lose => if s.owner.Busy? then Deliver(s, ConnectionLost, Leaving) else s.(owner := Leaving)
    case Close => s.(owner := Exited)
    case Emit(line) => s.(wire := s.wire + [line])
    case Answer(line) =>
      if Completes(s.commands[s.asked[0]].until, line) then
        s.(wire := s.wire + [line], asked := s.asked[1..], sent := [])
      else s.(wire := s.wire + [line], sent := s.sent + [line])
  }

  predicate IsRun(steps: seq<Step>)
    decreases |steps|, 0
  {
    steps == [] || (IsRun(Before(steps)) && Enabled(After(Before(steps)), Last(steps)))
  }

  function Before(steps: seq<Step>): seq<Step> requires steps != [] { steps[..|steps| - 1] }

  function Last(steps: seq<Step>): Step requires steps != [] { steps[|steps| - 1] }

  function After(steps: seq<Step>): (s: State)
    requires IsRun(steps)
    ensures Wf(s)
    decreases |steps|, 1
  {
    if steps == [] then START else Apply(After(Before(steps)), Last(steps))
  }

  // ---- every run, any console ----

  /** A reply as a caller may see it: no notification in it, complete at its last line and not before. */
  ghost predicate ProperReply(lines: seq<string>, until: Terminator) {
    && lines != []
    && (forall i :: 0 <= i < |lines| ==> !IsAsync(lines[i]))
    && (forall i :: 0 <= i < |lines| ==> (Completes(until, lines[i]) <==> i == |lines| - 1))
  }

  ghost predicate PartialReply(lines: seq<string>, until: Terminator) {
    forall i :: 0 <= i < |lines| ==> !IsAsync(lines[i]) && !Completes(until, lines[i])
  }

  ghost predicate CallerInv(s: State, id: nat)
    requires id in s.callers
  {
    match s.callers[id]
    case Offering => id !in s.accepted
    case Waiting => id in s.accepted && (id in s.delivered ==> id in s.mailbox)
    case Got(outcome) => id in s.delivered && s.delivered[id] == outcome && id !in s.mailbox
    case SawClosed => s.owner.Exited?
    case GaveUp => true
    case Unattended => id !in s.accepted
  }

  ghost predicate DeliveryInv(s: State, id: nat)
    requires id in s.delivered
  {
    && id in s.accepted && id in s.commands
    && (s.delivered[id].Reply? ==> ProperReply(s.delivered[id].lines, s.commands[id].until))
  }

  ghost predicate Inv(s: State) {
    && Wf(s)
    && s.accepted <= s.commands.Keys
    && s.mailbox.Keys <= s.delivered.Keys
    && (forall id :: id in s.mailbox ==> s.mailbox[id] == s.delivered[id])
    && (forall id :: id in s.delivered ==> DeliveryInv(s, id))
    && (forall id :: id in s.callers ==> CallerInv(s, id))
    && (s.owner.Busy? ==> s.owner.id in s.accepted && s.owner.id !in s.delivered
                          && PartialReply(s.owner.buf, s.commands[s.owner.id].until))
    && (s.owner.Idle? || s.owner.Busy? ==>
          forall id :: id in s.accepted ==> id in s.delivered || (s.owner.Busy? && s.owner.id == id))
  }

  lemma DeliverKeepsInv(s: State, outcome: Outcome, next: Owner)
    requires Inv(s) && s.owner.Busy? && !next.Busy? && !next.Exited?
    requires outcome.Reply? ==> ProperReply(outcome.lines, s.commands[s.owner.id].until)
    ensures Inv(Deliver(s, outcome, next))
  {
    var t := Deliver(s, outcome, next);
    forall id | id in t.delivered ensures DeliveryInv(t, id) { assert id != s.owner.id ==> DeliveryInv(s, id); }
    forall id | id in t.callers ensures CallerInv(t, id) { assert CallerInv(s, id); }
  }

  lemma ConsumeKeepsInv(s: State, line: string, handled: bool)
    requires Inv(s) && (s.owner.Idle? || s.owner.Busy?)
    ensures Inv(Consume(s, line, handled))
  {
    var t := Consume(s, line, handled);
    if !IsAsync(line) && s.owner.Busy? && Completes(s.commands[s.owner.id].until, line) {
      DeliverKeepsInv(s, Reply(s.owner.buf + [line]), Idle);
    } else {
      forall id | id in t.delivered ensures DeliveryInv(t, id) { assert DeliveryInv(s, id); }
      forall id | id in t.callers ensures CallerInv(t, id) { assert CallerInv(s, id); }
    }
  }

  lemma AcceptKeepsInv(s: State, id: nat, written: bool)
    requires Inv(s) && Enabled(s, Accept(id, written))
    ensures Inv(Apply(s, Accept(id, written)))
  {
    var w := s.(callers := s.callers[id := Waiting], accepted := s.accepted + {id}, owner := Busy(id, []));
    assert CallerInv(s, id) && id !in s.accepted;
    assert id in s.delivered ==> DeliveryInv(s, id);
    forall k | k in w.delivered ensures DeliveryInv(w, k) { assert DeliveryInv(s, k); }
    forall k | k in w.callers ensures CallerInv(w, k) { assert CallerInv(s, k); }
    assert Inv(w);
    if written {
      var t := Apply(s, Accept(id, written));
      assert t == w.(asked := s.asked + [id]);
      forall k | k in t.delivered ensures DeliveryInv(t, k) { assert DeliveryInv(w, k); }
      forall k | k in t.callers ensures CallerInv(t, k) { assert CallerInv(w, k); }
    } else {
      DeliverKeepsInv(w, WriteFailed, Leaving);
    }
  }

  /** A step that leaves the owner, the records and the results alone. */
  lemma CallerStepKeepsInv(s: State, t: State)
    requires Inv(s) && Wf(t) && t.delivered == s.delivered && t.accepted == s.accepted && t.owner == s.owner
    requires forall id :: id in s.commands ==> id in t.commands && t.commands[id] == s.commands[id]
    requires t.mailbox.Keys <= s.mailbox.Keys && forall id :: id in t.mailbox ==> t.mailbox[id] == s.mailbox[id]
    requires forall id :: id in t.callers ==> CallerInv(t, id)
    ensures Inv(t)
  {
    forall id | id in t.delivered ensures DeliveryInv(t, id) { assert DeliveryInv(s, id); }
  }

  lemma QuietStepKeepsInv(s: State, t: State)
    requires Inv(s) && Wf(t)
    requires t == s.(wire := t.wire, asked := t.asked, sent := t.sent, owner := t.owner)
    requires t.owner == s.owner || (t.owner == Leaving && !s.owner.Exited?) || t.owner == Exited
    ensures Inv(t)
  {
    forall id | id in t.delivered ensures DeliveryInv(t, id) { assert DeliveryInv(s, id); }
    forall id | id in t.callers ensures CallerInv(t, id) { assert CallerInv(s, id); }
  }

  lemma CallerMoveKeepsInv(s: State, step: Step)
    requires Inv(s) && Enabled(s, step)
    requires step.Call? || step.GiveUp? || step.SeeClosed? || step.Receive? || step.Respond?
    ensures Inv(Apply(s, step))
  {
    var t := Apply(s, step);
    forall id | id in t.callers ensures CallerInv(t, id) { assert id in s.callers ==> CallerInv(s, id); }
    CallerStepKeepsInv(s, t);
  }

  lemma StepKeepsInv(s: State, step: Step)
    requires Inv(s) && Enabled(s, step)
    ensures Inv(Apply(s, step))
  {
    match step
    case Accept(id, written) => AcceptKeepsInv(s, id, written);
    case ReadLine(handled) =>
      QuietStepKeepsInv(s, s.(wire := s.wire[1..]));
      ConsumeKeepsInv(s.(wire := s.wire[1..]), s.wire[0], handled);
    case CommandTimeout => DeliverKeepsInv(s, CommandTimedOut, Idle);
    case Lose =>
      if s.owner.Busy? {
        DeliverKeepsInv(s, ConnectionLost, Leaving);
      } else {
        QuietStepKeepsInv(s, Apply(s, step));
      }
    case Close => QuietStepKeepsInv(s, Apply(s, step));
    case Emit(_) => QuietStepKeepsInv(s, Apply(s, step));
    case Answer(_) => QuietStepKeepsInv(s, Apply(s, step));
    case _ => CallerMoveKeepsInv(s, step);
  }

  lemma {:induction false} RunKeepsInv(steps: seq<Step>)
    requires IsRun(steps)
    ensures Inv(After(steps))
    decreases |steps|
  {
    if steps != [] {
      RunKeepsInv(Before(steps));
      StepKeepsInv(After(Before(steps)), Last(steps));
    }
  }

  /** A reply channel is always empty when the owner is about to use it, so an abandoned caller never blocks it: with a
      command outstanding the timeout can fire, and whatever line comes first can be read. */
  lemma OwnerNeverBlocks(steps: seq<Step>)
    requires IsRun(steps)
    ensures var s := After(steps);
            && CanDeliver(s)
            && (s.owner.Busy? ==> Enabled(s, CommandTimeout) && Enabled(s, Lose))
            && ((s.owner.Idle? || s.owner.Busy?) && s.wire != [] ==> forall h :: Enabled(s, ReadLine(h)))
            && (s.owner.Idle? ==> forall id :: id in s.callers && s.callers[id].Offering? ==>
                 Enabled(s, Accept(id, true)))
  {
    RunKeepsInv(steps);
    var s := After(steps);
    forall id | id in s.callers && s.callers[id].Offering? ensures id !in s.mailbox {
      assert CallerInv(s, id);
      assert id in s.delivered ==> DeliveryInv(s, id);
    }
  }

  /** When a line completes a command, in every reachable state: a single-line command at the first line that begins
      with SUCCESS: or ERROR:, a longer one at the line that says END; until then lines are collected, and a
      notification is neither collected nor completes anything. */
  lemma ReadDeliversExactly(steps: seq<Step>, handled: bool)
    requires IsRun(steps) && After(steps).owner.Busy? && After(steps).wire != []
    ensures var s := After(steps);
            var id, line, lines := s.owner.id, s.wire[0], s.owner.buf + [s.wire[0]];
            && Enabled(s, ReadLine(handled))
            && var t := Apply(s, ReadLine(handled));
               if ">" <= line then
                 t.delivered == s.delivered && t.mailbox == s.mailbox && t.owner == if handled then s.owner else Leaving
               else if if s.commands[id].until == SingleLine then "SUCCESS:" <= line || "ERROR:" <= line
                       else Trim(line) == "END" then
                 t.delivered == s.delivered[id := Reply(lines)] && t.mailbox == s.mailbox[id := Reply(lines)] &&
                 t.owner == Idle
               else
                 t.delivered == s.delivered && t.mailbox == s.mailbox && t.owner == Busy(id, lines)
  {
    OwnerNeverBlocks(steps);
  }

  /** A result is never replaced. */
  lemma ResultsAreFinal(steps: seq<Step>, step: Step, id: nat)
    requires IsRun(steps) && Enabled(After(steps), step) && id in After(steps).delivered
    ensures var t := Apply(After(steps), step); id in t.delivered && t.delivered[id] == After(steps).delivered[id]
  {
    RunKeepsInv(steps);
    assert DeliveryInv(After(steps), id);
    match step
    case Accept(caller, _) => assert CallerInv(After(steps), caller);
    case _ =>
  }

  /** A caller that got a result got the one delivered for its own command, and a reply carries no notification and ends
      at its first terminating line. */
  lemma ResultsAreProper(steps: seq<Step>, id: nat)
    requires IsRun(steps) && id in After(steps).callers && After(steps).callers[id].Got?
    ensures var s := After(steps); var outcome := s.callers[id].outcome;
            && id in s.accepted && id in s.delivered && s.delivered[id] == outcome
            && (outcome.Reply? ==> ProperReply(outcome.lines, s.commands[id].until))
  {
    RunKeepsInv(steps);
    assert CallerInv(After(steps), id) && DeliveryInv(After(steps), id);
  }

  /** Where a waiting caller stands: its result is there, or it is the one outstanding command, or the loop is gone and
      it sees that (at once when `done` is closed). Without the loop's exit every accepted command but the outstanding
      one has its result. */
  lemma AcceptedIsResolved(steps: seq<Step>, id: nat)
    requires IsRun(steps) && id in After(steps).accepted
    ensures var s := After(steps);
            && (id in s.delivered || (s.owner.Busy? && s.owner.id == id) || s.owner.Leaving? || s.owner.Exited?)
            && (id in s.callers && s.callers[id].Waiting? ==>
                  || Enabled(s, Receive(id)) || Enabled(s, SeeClosed(id)) || s.owner.Leaving?
                  || (s.owner.Busy? && s.owner.id == id))
  {
    RunKeepsInv(steps);
    var s := After(steps);
    assert id in s.callers ==> CallerInv(s, id);
  }
}
