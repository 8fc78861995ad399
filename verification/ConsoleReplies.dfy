/** Whose answer a caller of the console gets. Replies carry no tag: a command is answered with what the console owed at
    the moment it was written, followed by its own answer, up to the first line that completes it. */
module ConsoleReplies {
  import opened Text
  import opened ConsoleOwner

  /** Reply lines, without notifications. */
  function Plain(lines: seq<string>): seq<string> {
    if lines == [] then [] else (if IsAsync(lines[0]) then [] else [lines[0]]) + Plain(lines[1..])
  }

  lemma {:induction false} PlainAppend(lines: seq<string>, line: string)
    ensures Plain(lines + [line]) == Plain(lines) + if IsAsync(line) then [] else [line]
  {
    var tail := if IsAsync(line) then [] else [line];
    if lines == [] {
      assert [line][1..] == [];
      assert lines + [line] == [line];
    } else {
      var head := if IsAsync(lines[0]) then [] else [lines[0]];
      assert (lines + [line])[0] == lines[0] && (lines + [line])[1..] == lines[1..] + [line];
      PlainAppend(lines[1..], line);
      assert head + (Plain(lines[1..]) + tail) == (head + Plain(lines[1..])) + tail;
    }
  }

  // ---- a console that answers in order ----

  /** The console speaks in turn: notifications at any time, and the lines of its answer to the oldest command that it
      did not finish answering. The owner's own commands are acknowledged like the callers'. Commands may time out and
      callers may give up. */
  ghost predicate InOrder(s: State, step: Step, answers: map<nat, seq<string>>) {
    match step
    case Emit(line) => IsAsync(line)
    case Answer(line) =>
      && s.asked != [] && s.asked[0] in answers
      && |s.sent| < |answers[s.asked[0]]| && line == answers[s.asked[0]][|s.sent|]
    case Call(id, c) => id in answers && ProperReply(answers[id], c.until)
    case Respond(id, _) => id in answers && ProperReply(answers[id], SingleLine)
    case _ => true
  }

  ghost predicate InOrderRun(steps: seq<Step>, answers: map<nat, seq<string>>)
    requires IsRun(steps)
    decreases |steps|
  {
    steps == [] || (InOrderRun(Before(steps), answers) && InOrder(After(Before(steps)), Last(steps), answers))
  }

  ghost predicate Fit(s: State, answers: map<nat, seq<string>>) {
    forall id :: id in s.commands ==> id in answers && ProperReply(answers[id], s.commands[id].until)
  }

  lemma {:induction false} RunFits(steps: seq<Step>, answers: map<nat, seq<string>>)
    requires IsRun(steps) && InOrderRun(steps, answers)
    ensures Fit(After(steps), answers)
    decreases |steps|
  {
    if steps != [] {
      RunFits(Before(steps), answers);
      StepFits(After(Before(steps)), Last(steps), answers);
    }
  }

  lemma StepFits(s: State, step: Step, answers: map<nat, seq<string>>)
    requires Wf(s) && Fit(s, answers) && Enabled(s, step) && InOrder(s, step, answers)
    ensures Fit(Apply(s, step), answers)
  {
    CommandsKept(s, step);
  }

  lemma CommandsKept(s: State, step: Step)
    requires Wf(s) && Enabled(s, step)
    ensures Apply(s, step).commands ==
            if step.Call? then s.commands[step.caller := step.command]
            else if step.Respond? then s.commands[step.id := Command(step.text, SingleLine)]
            else s.commands
  {}

  // ---- what the console owes ----

  /** What the console has still to say to the commands it received. */
  function Rest(asked: seq<nat>, sent: seq<string>, answers: map<nat, seq<string>>): seq<string>
    decreases |asked|
  {
    if asked == [] then []
    else
      (if asked[0] in answers && |sent| <= |answers[asked[0]]| then answers[asked[0]][|sent|..] else []) +
      Rest(asked[1..], [], answers)
  }

  /** The lines that the owner will read before anything new is asked. */
  function Owed(s: State, answers: map<nat, seq<string>>): seq<string> {
    Plain(s.wire) + Rest(s.asked, s.sent, answers)
  }

  /** Everything that was written has been answered, and the answers have been read. */
  predicate OwesNothing(s: State) {
    s.asked == [] && s.sent == [] && Plain(s.wire) == []
  }

  ghost predicate ConsoleInv(s: State, answers: map<nat, seq<string>>) {
    && Wf(s) && Fit(s, answers)
    && (forall i :: 0 <= i < |s.asked| ==> !s.callers[s.asked[i]].Offering?)
    && (if s.asked == [] then s.sent == [] else s.sent < answers[s.asked[0]])
  }

  lemma PrefixGrows(sent: seq<string>, answer: seq<string>, line: string)
    requires sent < answer && line == answer[|sent|]
    ensures if |sent| == |answer| - 1 then sent + [line] == answer else sent + [line] < answer
  {
    assert answer[..|sent| + 1] == answer[..|sent|] + [answer[|sent|]];
    assert answer[..|sent|] == sent;
  }

  lemma AnswerKeepsConsoleInv(s: State, line: string, answers: map<nat, seq<string>>)
    requires ConsoleInv(s, answers) && Enabled(s, Answer(line)) && InOrder(s, Answer(line), answers)
    ensures ConsoleInv(Apply(s, Answer(line)), answers)
  {
    var answer := answers[s.asked[0]];
    assert ProperReply(answer, s.commands[s.asked[0]].until);
    PrefixGrows(s.sent, answer, line);
    if |s.asked| > 1 { assert ProperReply(answers[s.asked[1]], s.commands[s.asked[1]].until); }
  }

  /** A command was written. */
  lemma WriteKeepsConsoleInv(s: State, t: State, id: nat, answers: map<nat, seq<string>>)
    requires ConsoleInv(s, answers) && Wf(t) && Fit(t, answers) && t.asked == s.asked + [id] && t.sent == s.sent
    requires id in t.callers && !t.callers[id].Offering?
    requires forall k :: k in s.callers && !s.callers[k].Offering? ==> k in t.callers && !t.callers[k].Offering?
    ensures ConsoleInv(t, answers)
  {
    assert ProperReply(answers[id], t.commands[id].until);
  }

  lemma SilentKeepsConsoleInv(s: State, t: State, answers: map<nat, seq<string>>)
    requires ConsoleInv(s, answers) && Wf(t) && Fit(t, answers) && t.asked == s.asked && t.sent == s.sent
    requires forall k :: k in s.callers && !s.callers[k].Offering? ==> k in t.callers && !t.callers[k].Offering?
    ensures ConsoleInv(t, answers)
  {}

  function WrittenBy(step: Step): seq<nat> {
    if step.Accept? && step.written then [step.caller] else if step.Respond? then [step.id] else []
  }

  /** Only an accepted command and the reply to a notification are written; nobody offers a command twice. */
  lemma Written(s: State, step: Step)
    requires Wf(s) && Enabled(s, step) && !step.Answer?
    ensures var t := Apply(s, step);
            && t.sent == s.sent
            && t.asked == s.asked + WrittenBy(step)
            && forall k :: k in s.callers && !s.callers[k].Offering? ==> k in t.callers && !t.callers[k].Offering?
  {}

  lemma StepKeepsConsoleInv(s: State, step: Step, answers: map<nat, seq<string>>)
    requires ConsoleInv(s, answers) && Enabled(s, step) && InOrder(s, step, answers)
    ensures ConsoleInv(Apply(s, step), answers)
  {
    if step.Answer? {
      AnswerKeepsConsoleInv(s, step.line, answers);
    } else {
      StepFits(s, step, answers);
      Written(s, step);
      if step.Accept? && step.written {
        WriteKeepsConsoleInv(s, Apply(s, step), step.caller, answers);
      } else if step.Respond? {
        WriteKeepsConsoleInv(s, Apply(s, step), step.id, answers);
      } else {
        SilentKeepsConsoleInv(s, Apply(s, step), answers);
      }
    }
  }

  lemma {:induction false} RunKeepsConsoleInv(steps: seq<Step>, answers: map<nat, seq<string>>)
    requires IsRun(steps) && InOrderRun(steps, answers)
    ensures ConsoleInv(After(steps), answers)
    decreases |steps|
  {
    if steps != [] {
      RunKeepsConsoleInv(Before(steps), answers);
      StepKeepsConsoleInv(After(Before(steps)), Last(steps), answers);
    }
  }

  lemma Extend(steps: seq<Step>, step: Step, answers: map<nat, seq<string>>)
    requires IsRun(steps) && InOrderRun(steps, answers)
    requires Enabled(After(steps), step) && InOrder(After(steps), step, answers)
    ensures IsRun(steps + [step]) && InOrderRun(steps + [step], answers) &&
        After(steps + [step]) == Apply(After(steps), step)
  {
    assert Before(steps + [step]) == steps && Last(steps + [step]) == step;
  }

  /** The console's next line: the head of the rest. */
  lemma NextLine(s: State, answers: map<nat, seq<string>>) returns (line: string)
    requires ConsoleInv(s, answers) && s.asked != []
    ensures Enabled(s, Answer(line)) && InOrder(s, Answer(line), answers) && !IsAsync(line)
    ensures var t := Apply(s, Answer(line)); Rest(s.asked, s.sent, answers) == [line] + Rest(t.asked, t.sent, answers)
  {
    var id := s.asked[0];
    var answer := answers[id];
    line := answer[|s.sent|];
    assert ProperReply(answer, s.commands[id].until);
    assert answer[|s.sent|..] == [line] + answer[|s.sent| + 1..];
    assert Completes(s.commands[id].until, line) <==> |s.sent| == |answer| - 1;
    RestAfterFirst(s.asked, s.sent + [line], answers);
  }

  lemma RestAfterFirst(asked: seq<nat>, sent: seq<string>, answers: map<nat, seq<string>>)
    requires asked != [] && asked[0] in answers && |sent| <= |answers[asked[0]]|
    ensures Rest(asked, sent, answers) == answers[asked[0]][|sent|..] + Rest(asked[1..], [], answers)
    ensures |sent| == |answers[asked[0]]| ==> Rest(asked, sent, answers) == Rest(asked[1..], [], answers)
  {}

  lemma {:induction false} RestAppend(asked: seq<nat>, sent: seq<string>, id: nat, answers: map<nat, seq<string>>)
    requires id in answers && (asked == [] ==> sent == [])
    ensures Rest(asked + [id], sent, answers) == Rest(asked, sent, answers) + answers[id]
    decreases |asked|
  {
    if asked == [] {
      assert [id][1..] == [] && asked + [id] == [id];
    } else {
      assert (asked + [id])[0] == asked[0] && (asked + [id])[1..] == asked[1..] + [id];
      RestAppend(asked[1..], [], id, answers);
      var first := if asked[0] in answers && |sent| <= |answers[asked[0]]| then answers[asked[0]][|sent|..] else [];
      assert first + (Rest(asked[1..], [], answers) + answers[id]) == (first + Rest(asked[1..], [], answers)) +
          answers[id];
    }
  }

  lemma AnswerKeepsOwed(s: State, line: string, answers: map<nat, seq<string>>)
    requires ConsoleInv(s, answers) && Enabled(s, Answer(line)) && InOrder(s, Answer(line), answers)
    ensures Owed(Apply(s, Answer(line)), answers) == Owed(s, answers)
  {
    var next := NextLine(s, answers);
    assert next == line;
    var t := Apply(s, Answer(line));
    PlainAppend(s.wire, line);
    var plain, rest := Plain(s.wire), Rest(t.asked, t.sent, answers);
    assert plain + ([line] + rest) == (plain + [line]) + rest;
  }

  /** A written command adds its answer. */
  lemma WriteOwes(s: State, t: State, id: nat, answers: map<nat, seq<string>>)
    requires ConsoleInv(s, answers) && id in answers
    requires t.asked == s.asked + [id] && t.sent == s.sent && Plain(t.wire) == Plain(s.wire)
    ensures Owed(t, answers) == Owed(s, answers) + answers[id]
  {
    RestAppend(s.asked, s.sent, id, answers);
    var plain, rest := Plain(s.wire), Rest(s.asked, s.sent, answers);
    assert plain + (rest + answers[id]) == (plain + rest) + answers[id];
  }

  lemma OwedSplits(s: State, answers: map<nat, seq<string>>)
    requires s.wire != [] && !IsAsync(s.wire[0])
    ensures Owed(s, answers) == [s.wire[0]] + Owed(s.(wire := s.wire[1..]), answers)
  {
    var first, plain, rest := [s.wire[0]], Plain(s.wire[1..]), Rest(s.asked, s.sent, answers);
    assert (first + plain) + rest == first + (plain + rest);
  }

  lemma OwedIsWireAndRest(s: State, t: State, answers: map<nat, seq<string>>)
    requires Plain(t.wire) == Plain(s.wire) && t.asked == s.asked && t.sent == s.sent
    ensures Owed(t, answers) == Owed(s, answers)
  {}

  /** What one step does to the lines owed: writing adds an answer at the end, reading takes the first line away, and
      nothing else changes them. */
  lemma OwedMoves(s: State, step: Step, answers: map<nat, seq<string>>)
    requires ConsoleInv(s, answers) && Enabled(s, step) && InOrder(s, step, answers)
    ensures var t := Apply(s, step);
            if step.Accept? && step.written then
              step.caller in answers && Owed(t, answers) == Owed(s, answers) + answers[step.caller]
            else if step.Respond? then Owed(t, answers) == Owed(s, answers) + answers[step.id]
            else if step.ReadLine? && !IsAsync(s.wire[0]) then Owed(s, answers) == [s.wire[0]] + Owed(t, answers)
            else Owed(t, answers) == Owed(s, answers)
  {
    var t := Apply(s, step);
    if step.Answer? {
      AnswerKeepsOwed(s, step.line, answers);
    } else {
      Written(s, step);
      if step.Accept? && step.written {
        assert ProperReply(answers[step.caller], s.commands[step.caller].until);
        WriteOwes(s, t, step.caller, answers);
      } else if step.Respond? {
        WriteOwes(s, t, step.id, answers);
      } else if step.ReadLine? {
        OwedAfterRead(s, step.handled, answers);
      } else {
        if step.Emit? { PlainAppend(s.wire, step.line); }
        OwedIsWireAndRest(s, t, answers);
      }
    }
  }

  lemma OwedAfterRead(s: State, handled: bool, answers: map<nat, seq<string>>)
    requires Wf(s) && Enabled(s, ReadLine(handled))
    ensures var t := Apply(s, ReadLine(handled));
            if IsAsync(s.wire[0]) then Owed(t, answers) == Owed(s, answers)
            else Owed(s, answers) == [s.wire[0]] + Owed(t, answers)
  {
    var u, t := s.(wire := s.wire[1..]), Apply(s, ReadLine(handled));
    ReadTakesLine(s, handled);
    OwedIsWireAndRest(u, t, answers);
    if !IsAsync(s.wire[0]) { OwedSplits(s, answers); } else { OwedIsWireAndRest(s, t, answers); }
  }

  lemma ReadTakesLine(s: State, handled: bool)
    requires Wf(s) && Enabled(s, ReadLine(handled))
    ensures var t := Apply(s, ReadLine(handled)); t.wire == s.wire[1..] && t.asked == s.asked && t.sent == s.sent
  {}

  lemma OwedIsSomething(s: State, answers: map<nat, seq<string>>)
    requires ConsoleInv(s, answers)
    ensures Owed(s, answers) == [] <==> OwesNothing(s)
  {
    if s.asked != [] { var line := NextLine(s, answers); }
  }

  // ---- what a command is due ----

  function FirstComplete(lines: seq<string>, until: Terminator): (n: nat)
    ensures n <= |lines| && (n < |lines| ==> Completes(until, lines[n]))
    ensures forall i :: 0 <= i < n ==> !Completes(until, lines[i])
  {
    if lines == [] || Completes(until, lines[0]) then 0 else 1 + FirstComplete(lines[1..], until)
  }

  /** The lines up to the first that completes a reply. */
  function Upto(lines: seq<string>, until: Terminator): (reply: seq<string>)
    requires FirstComplete(lines, until) < |lines|
    ensures reply <= lines && reply != []
  {
    lines[..FirstComplete(lines, until) + 1]
  }

  lemma {:induction false} FirstCompleteAppend(lines: seq<string>, more: seq<string>, until: Terminator)
    requires FirstComplete(lines, until) < |lines|
    ensures FirstComplete(lines + more, until) == FirstComplete(lines, until)
    ensures Upto(lines + more, until) == Upto(lines, until)
  {
    var k := FirstComplete(lines, until);
    assert (lines + more)[..k + 1] == lines[..k + 1];
    var n := FirstComplete(lines + more, until);
    assert forall i :: 0 <= i < |lines| ==> (lines + more)[i] == lines[i];
  }

  lemma HeadFirst(line: string, tail: seq<string>, until: Terminator)
    ensures FirstComplete([line] + tail, until) == if Completes(until, line) then 0 else 1 + FirstComplete(tail, until)
  {
    assert ([line] + tail)[1..] == tail;
  }

  lemma HeadTaken(buf: seq<string>, line: string, tail: seq<string>, until: Terminator)
    requires FirstComplete([line] + tail, until) < |[line] + tail| && !Completes(until, line)
    ensures FirstComplete(tail, until) < |tail|
    ensures buf + Upto([line] + tail, until) == (buf + [line]) + Upto(tail, until)
  {
    HeadFirst(line, tail, until);
    assert Upto([line] + tail, until) == [line] + Upto(tail, until);
  }

  /** Lines that come before the own answer end up in the reply. */
  lemma {:induction false} FirstOfBoth(owed: seq<string>, own: seq<string>, until: Terminator)
    requires ProperReply(own, until)
    ensures var k := FirstComplete(owed, until);
            FirstComplete(owed + own, until) == if k < |owed| then k else |owed| + |own| - 1
  {
    if owed == [] {
      assert owed + own == own;
      var k := FirstComplete(own, until);
      assert Completes(until, own[|own| - 1]);
      assert k < |own| ==> Completes(until, own[k]);
    } else {
      assert (owed + own)[1..] == owed[1..] + own;
      FirstOfBoth(owed[1..], own, until);
    }
  }

  /** The reply to a command that is written while `owed` is under way. */
  function DueNow(owed: seq<string>, own: seq<string>, until: Terminator): seq<string>
    requires FirstComplete(owed + own, until) < |owed + own|
  {
    Upto(owed + own, until)
  }

  /** The own answer completes the command if nothing before does. */
  lemma SomethingIsDue(owed: seq<string>, own: seq<string>, until: Terminator)
    requires ProperReply(own, until)
    ensures FirstComplete(owed + own, until) < |owed + own|
    ensures owed == [] ==> DueNow(owed, own, until) == own
  {
    FirstOfBoth(owed, own, until);
    if owed == [] { assert owed + own == own; }
  }

  predicate Delivering(s: State, answers: map<nat, seq<string>>) {
    && s.owner.Busy? && s.owner.id in s.commands
    && FirstComplete(Owed(s, answers), s.commands[s.owner.id].until) < |Owed(s, answers)|
  }

  /** What the outstanding command will get: what was read and is owed, up to the first line that completes it. */
  function Due(s: State, answers: map<nat, seq<string>>): seq<string>
    requires Delivering(s, answers)
  {
    s.owner.buf + Upto(Owed(s, answers), s.commands[s.owner.id].until)
  }

  /** The outstanding command stays so with the same reply due, or it is finished, with a reply only if that was due. */
  ghost predicate KeepsDue(s: State, t: State, answers: map<nat, seq<string>>)
    requires Delivering(s, answers)
  {
    if t.owner.Busy? then Delivering(t, answers) && t.owner.id == s.owner.id && Due(t, answers) == Due(s, answers)
    else s.owner.id in t.delivered && t.delivered[s.owner.id].Reply? ==>
        t.delivered[s.owner.id].lines == Due(s, answers)
  }

  /** Reading the line that completes the command. */
  lemma ReadLast(s: State, handled: bool, answers: map<nat, seq<string>>)
    requires Wf(s) && Enabled(s, ReadLine(handled)) && Delivering(s, answers) && !IsAsync(s.wire[0])
    requires Completes(s.commands[s.owner.id].until, s.wire[0])
    ensures Apply(s, ReadLine(handled)) == Deliver(s.(wire := s.wire[1..]), Reply(Due(s, answers)), Idle)
  {
    var line, tail := s.wire[0], Owed(s.(wire := s.wire[1..]), answers);
    OwedSplits(s, answers);
    HeadFirst(line, tail, s.commands[s.owner.id].until);
    assert Upto([line] + tail, s.commands[s.owner.id].until) == [line];
  }

  /** Reading another line of the reply. */
  lemma ReadMore(s: State, handled: bool, answers: map<nat, seq<string>>)
    requires Wf(s) && Enabled(s, ReadLine(handled)) && Delivering(s, answers) && !IsAsync(s.wire[0])
    requires !Completes(s.commands[s.owner.id].until, s.wire[0])
    ensures var t := Apply(s, ReadLine(handled));
            t.owner.Busy? && t.owner.id == s.owner.id && Delivering(t, answers) && Due(t, answers) == Due(s, answers)
  {
    var line, until := s.wire[0], s.commands[s.owner.id].until;
    var t := s.(wire := s.wire[1..], owner := Busy(s.owner.id, s.owner.buf + [line]));
    OwedSplits(s, answers);
    OwedIsWireAndRest(s.(wire := s.wire[1..]), t, answers);
    assert Apply(s, ReadLine(handled)) == t;
    HeadTaken(s.owner.buf, line, Owed(t, answers), until);
  }

  lemma ReadKeepsDue(s: State, handled: bool, answers: map<nat, seq<string>>)
    requires Wf(s) && Enabled(s, ReadLine(handled)) && Delivering(s, answers) && !IsAsync(s.wire[0])
    ensures KeepsDue(s, Apply(s, ReadLine(handled)), answers)
    ensures var t := Apply(s, ReadLine(handled));
            !t.owner.Busy? ==> s.owner.id in t.mailbox && t.mailbox[s.owner.id] == Reply(Due(s, answers))
  {
    if Completes(s.commands[s.owner.id].until, s.wire[0]) {
      ReadLast(s, handled, answers);
    } else {
      ReadMore(s, handled, answers);
    }
  }

  lemma SameOwedKeepsDue(s: State, t: State, answers: map<nat, seq<string>>)
    requires Delivering(s, answers) && t.owner == s.owner && s.owner.id in t.commands
    requires t.commands[s.owner.id] == s.commands[s.owner.id] && Owed(s, answers) <= Owed(t, answers)
    ensures Delivering(t, answers) && Due(t, answers) == Due(s, answers)
  {
    var more := Owed(t, answers)[|Owed(s, answers)|..];
    assert Owed(t, answers) == Owed(s, answers) + more;
    FirstCompleteAppend(Owed(s, answers), more, s.commands[s.owner.id].until);
  }

  lemma BusyStaysOrFails(s: State, step: Step)
    requires Inv(s) && s.owner.Busy? && Enabled(s, step)
    requires step.ReadLine? ==> IsAsync(s.wire[0])
    ensures var t := Apply(s, step);
            if t.owner.Busy? then t.owner == s.owner else s.owner.id in t.delivered ==> !t.delivered[s.owner.id].Reply?
  {}

  /** What is due stays due, whatever is written in the meantime. */
  lemma StepKeepsDue(s: State, step: Step, answers: map<nat, seq<string>>)
    requires Inv(s) && ConsoleInv(s, answers) && Delivering(s, answers) && Enabled(s, step) && InOrder(s, step, answers)
    ensures KeepsDue(s, Apply(s, step), answers)
  {
    if step.ReadLine? && !IsAsync(s.wire[0]) {
      ReadKeepsDue(s, step.handled, answers);
    } else {
      BusyStaysOrFails(s, step);
      OwedMoves(s, step, answers);
      CommandsKept(s, step);
      if Apply(s, step).owner.Busy? { SameOwedKeepsDue(s, Apply(s, step), answers); }
    }
  }

  /** An accepted command whose reply, delivered or under way, is `due`. */
  ghost predicate Gets(s: State, id: nat, due: seq<string>, answers: map<nat, seq<string>>) {
    && id in s.accepted
    && (id in s.delivered && s.delivered[id].Reply? ==> s.delivered[id].lines == due)
    && (s.owner.Busy? && s.owner.id == id ==> Delivering(s, answers) && Due(s, answers) == due)
  }

  lemma OtherStep(s: State, step: Step, id: nat)
    requires Inv(s) && Enabled(s, step) && id in s.accepted && !(s.owner.Busy? && s.owner.id == id)
    ensures var t := Apply(s, step);
            && !(t.owner.Busy? && t.owner.id == id)
            && (id in t.delivered ==> id in s.delivered && t.delivered[id] == s.delivered[id])
  {
    if step.Accept? { assert CallerInv(s, step.caller); }
  }

  lemma StepKeepsGets(s: State, step: Step, id: nat, due: seq<string>, answers: map<nat, seq<string>>)
    requires Inv(s) && ConsoleInv(s, answers) && Gets(s, id, due, answers) && Enabled(s, step) &&
        InOrder(s, step, answers)
    ensures Gets(Apply(s, step), id, due, answers)
  {
    AcceptedGrows(s, step);
    if s.owner.Busy? && s.owner.id == id { StepKeepsDue(s, step, answers); } else { OtherStep(s, step, id); }
  }

  /** What a run says of a caller that offers its command: nothing happened to it yet. */
  lemma OfferingIsNew(s: State, id: nat)
    requires Inv(s) && id in s.callers && s.callers[id].Offering?
    ensures id !in s.accepted && id !in s.delivered && id !in s.mailbox
  {
    assert CallerInv(s, id);
    assert id in s.delivered ==> DeliveryInv(s, id);
  }

  lemma AcceptedGrows(s: State, step: Step)
    requires Wf(s) && Enabled(s, step)
    ensures Apply(s, step).accepted == if step.Accept? then s.accepted + {step.caller} else s.accepted
  {}

  /** The reply that a command written in this state is due. */
  ghost function DueAt(s: State, id: nat, answers: map<nat, seq<string>>): seq<string>
    requires ConsoleInv(s, answers) && id in s.commands
  {
    SomethingIsDue(Owed(s, answers), answers[id], s.commands[id].until);
    DueNow(Owed(s, answers), answers[id], s.commands[id].until)
  }

  lemma AcceptGets(s: State, id: nat, answers: map<nat, seq<string>>)
    requires Inv(s) && ConsoleInv(s, answers) && Enabled(s, Accept(id, true))
    ensures Gets(Apply(s, Accept(id, true)), id, DueAt(s, id, answers), answers)
  {
    OfferingIsNew(s, id);
    OwedMoves(s, Accept(id, true), answers);
    var t := Apply(s, Accept(id, true));
    SomethingIsDue(Owed(s, answers), answers[id], s.commands[id].until);
    assert [] + Upto(Owed(t, answers), s.commands[id].until) == Upto(Owed(t, answers), s.commands[id].until);
  }

  /** A run that goes on. */
  ghost predicate Continues(longer: seq<Step>, steps: seq<Step>, answers: map<nat, seq<string>>) {
    IsRun(longer) && InOrderRun(longer, answers) && steps <= longer
  }

  lemma {:induction false} KeepsGets(longer: seq<Step>, steps: seq<Step>, id: nat, due: seq<string>,
                                     answers: map<nat, seq<string>>)
    requires IsRun(steps) && Gets(After(steps), id, due, answers) && Continues(longer, steps, answers)
    ensures Gets(After(longer), id, due, answers)
    decreases |longer|
  {
    if longer != steps {
      assert steps <= Before(longer);
      KeepsGets(Before(longer), steps, id, due, answers);
      RunKeepsInv(Before(longer));
      RunKeepsConsoleInv(Before(longer), answers);
      StepKeepsGets(After(Before(longer)), Last(longer), id, due, answers);
    }
  }

  /** Against a console that answers in order, in every continuation of a run whose last step writes a command: a
      reply to it is exactly what was owed at that moment followed by its own answer, up to the first line that
      completes it. */
  lemma RepliesAreDue(longer: seq<Step>, steps: seq<Step>, id: nat, answers: map<nat, seq<string>>)
    requires IsRun(steps) && InOrderRun(steps, answers) && Enabled(After(steps), Accept(id, true))
    requires Continues(longer, steps + [Accept(id, true)], answers)
    requires id in After(longer).callers && After(longer).callers[id].Got? && After(longer).callers[id].outcome.Reply?
    ensures ConsoleInv(After(steps), answers) &&
        After(longer).callers[id].outcome.lines == DueAt(After(steps), id, answers)
  {
    RunKeepsInv(steps);
    RunKeepsConsoleInv(steps, answers);
    AcceptGets(After(steps), id, answers);
    Extend(steps, Accept(id, true), answers);
    KeepsGets(longer, steps + [Accept(id, true)], id, DueAt(After(steps), id, answers), answers);
    RunKeepsInv(longer);
    assert CallerInv(After(longer), id);
  }

  // ---- a command that is written while nothing is owed ----

  /** The command of `id` was written, if at all, while the console owed nothing. */
  ghost predicate QuietFor(steps: seq<Step>, id: nat)
    requires IsRun(steps)
    decreases |steps|
  {
    steps == [] || (QuietFor(Before(steps), id) &&
        (Last(steps) == Accept(id, true) ==> OwesNothing(After(Before(steps)))))
  }

  lemma QuietGetsOwn(s: State, id: nat, answers: map<nat, seq<string>>)
    requires Inv(s) && ConsoleInv(s, answers) && Enabled(s, Accept(id, true)) && OwesNothing(s)
    ensures id in answers && Gets(Apply(s, Accept(id, true)), id, answers[id], answers)
  {
    OwedIsSomething(s, answers);
    AcceptGets(s, id, answers);
    SomethingIsDue(Owed(s, answers), answers[id], s.commands[id].until);
  }

  lemma {:induction false} QuietRunGetsOwn(steps: seq<Step>, answers: map<nat, seq<string>>, id: nat)
    requires IsRun(steps) && InOrderRun(steps, answers) && QuietFor(steps, id)
    ensures id in After(steps).accepted ==> id in answers && Gets(After(steps), id, answers[id], answers)
    decreases |steps|
  {
    if steps != [] {
      var s, step := After(Before(steps)), Last(steps);
      QuietRunGetsOwn(Before(steps), answers, id);
      RunKeepsInv(Before(steps));
      RunKeepsConsoleInv(Before(steps), answers);
      AcceptedGrows(s, step);
      if id in s.accepted {
        StepKeepsGets(s, step, id, answers[id], answers);
      } else if step.Accept? && step.caller == id {
        if step.written { QuietGetsOwn(s, id, answers); } else { AcceptFails(s, id, answers); }
      }
    }
  }

  lemma AcceptFails(s: State, id: nat, answers: map<nat, seq<string>>)
    requires ConsoleInv(s, answers) && Enabled(s, Accept(id, false))
    ensures id in answers && Gets(Apply(s, Accept(id, false)), id, answers[id], answers)
  {
    assert ProperReply(answers[id], s.commands[id].until);
  }

  /** A reply is the console's answer to that caller's own command whenever the command was written while the console
      owed nothing: whatever commands timed out before or after, whatever notifications were answered before or
      after, whatever callers gave up. */
  lemma RepliesAreOwn(steps: seq<Step>, answers: map<nat, seq<string>>, id: nat)
    requires IsRun(steps) && InOrderRun(steps, answers) && QuietFor(steps, id)
    requires id in After(steps).callers && After(steps).callers[id].Got? && After(steps).callers[id].outcome.Reply?
    ensures id in answers && After(steps).callers[id].outcome.lines == answers[id]
  {
    RunKeepsInv(steps);
    var s := After(steps);
    assert CallerInv(s, id) && DeliveryInv(s, id);
    QuietRunGetsOwn(steps, answers, id);
  }

  // ---- without command timeouts only acknowledgements are owed ----

  predicate NoTimeout(steps: seq<Step>) {
    forall i :: 0 <= i < |steps| ==> !steps[i].CommandTimeout?
  }

  /** An owner that counts its unread acknowledgements adds one for each reply that it writes and takes one away for
      each acknowledging line that it reads while no command is outstanding. */
  function Counted(s: State, step: Step, n: nat): nat
    requires Enabled(s, step)
  {
    match step
    case Respond(_, _) => n + 1
    case ReadLine(_) => if s.owner.Idle? && IsAck(s.wire[0]) && n > 0 then n - 1 else n
    case _ => n
  }

  function Unread(steps: seq<Step>): (n: nat)
    requires IsRun(steps)
    decreases |steps|
  {
    if steps == [] then 0 else Counted(After(Before(steps)), Last(steps), Unread(Before(steps)))
  }

  predicate IsAck(line: string) { !IsAsync(line) && Completes(SingleLine, line) }

  /** Every command was written with no acknowledgement unread. */
  ghost predicate AcksRead(steps: seq<Step>)
    requires IsRun(steps)
    decreases |steps|
  {
    steps == [] ||
      (AcksRead(Before(steps)) && (Last(steps).Accept? && Last(steps).written ==> Unread(Before(steps)) == 0))
  }

  function Count(lines: seq<string>): nat {
    if lines == [] then 0 else Count(lines[1..]) + if IsAck(lines[0]) then 1 else 0
  }

  /** n acknowledgements, the last of them complete. */
  ghost predicate Acks(lines: seq<string>, n: nat) {
    Count(lines) == n && (lines != [] ==> IsAck(lines[|lines| - 1]))
  }

  lemma {:induction false} CountAppend(a: seq<string>, b: seq<string>)
    ensures Count(a + b) == Count(a) + Count(b)
  {
    if a == [] {
      assert a + b == b;
    } else {
      assert (a + b)[1..] == a[1..] + b;
      CountAppend(a[1..], b);
    }
  }

  lemma {:induction false} CountProper(answer: seq<string>)
    requires ProperReply(answer, SingleLine)
    ensures Count(answer) == 1 && IsAck(answer[|answer| - 1])
  {
    var init, last := answer[..|answer| - 1], answer[|answer| - 1];
    CountNone(init);
    CountAppend(init, [last]);
    assert answer == init + [last] && [last][1..] == [];
  }

  lemma {:induction false} CountNone(lines: seq<string>)
    requires forall i :: 0 <= i < |lines| ==> !IsAck(lines[i])
    ensures Count(lines) == 0
  {
    if lines != [] { CountNone(lines[1..]); }
  }

  lemma AcksMore(lines: seq<string>, n: nat, answer: seq<string>)
    requires Acks(lines, n) && ProperReply(answer, SingleLine)
    ensures Acks(lines + answer, n + 1)
  {
    CountAppend(lines, answer);
    CountProper(answer);
  }

  lemma AcksEmpty(lines: seq<string>, n: nat)
    requires Acks(lines, n)
    ensures lines == [] <==> n == 0
  {
    if lines != [] {
      var init, last := lines[..|lines| - 1], lines[|lines| - 1];
      CountAppend(init, [last]);
      assert lines == init + [last] && [last][1..] == [];
    }
  }

  /** The lines of the own answer that the outstanding command has still to read, and then acknowledgements. */
  ghost predicate OwnThenAcks(s: State, answers: map<nat, seq<string>>, own: seq<string>, acks: seq<string>, n: nat) {
    && s.owner.Busy? && s.owner.id in answers
    && own != [] && s.owner.buf + own == answers[s.owner.id] && Owed(s, answers) == own + acks && Acks(acks, n)
  }

  ghost predicate OnlyAcks(s: State, answers: map<nat, seq<string>>, n: nat) {
    && (s.owner.Idle? ==> Acks(Owed(s, answers), n))
    && (s.owner.Busy? ==> exists own, acks :: OwnThenAcks(s, answers, own, acks, n))
  }

  lemma AcksLess(line: string, rest: seq<string>, n: nat)
    requires Acks([line] + rest, n)
    ensures Acks(rest, if IsAck(line) then n - 1 else n) && (IsAck(line) ==> n > 0)
  {
    CountAppend([line], rest);
    assert [line][1..] == [];
    if rest != [] { assert ([line] + rest)[|rest|] == rest[|rest| - 1]; }
  }

  lemma AcceptOwes(s: State, id: nat, answers: map<nat, seq<string>>)
    requires ConsoleInv(s, answers) && Enabled(s, Accept(id, true)) && Acks(Owed(s, answers), 0)
    ensures OnlyAcks(Apply(s, Accept(id, true)), answers, 0)
  {
    OwedMoves(s, Accept(id, true), answers);
    AcksEmpty(Owed(s, answers), 0);
    var own := answers[id];
    assert ProperReply(own, s.commands[id].until);
    assert [] + own == own == own + [];
    assert OwnThenAcks(Apply(s, Accept(id, true)), answers, own, [], 0);
  }

  lemma IdleStaysOrLeaves(s: State, step: Step)
    requires Wf(s) && s.owner.Idle? && Enabled(s, step) && !(step.Accept? && step.written)
    ensures !Apply(s, step).owner.Busy?
  {}

  lemma IdleKeepsOnlyAcks(s: State, step: Step, answers: map<nat, seq<string>>, n: nat)
    requires ConsoleInv(s, answers) && s.owner.Idle? && Acks(Owed(s, answers), n)
    requires Enabled(s, step) && InOrder(s, step, answers) && (step.Accept? && step.written ==> n == 0)
    ensures OnlyAcks(Apply(s, step), answers, Counted(s, step, n))
  {
    if step.Accept? && step.written {
      AcceptOwes(s, step.caller, answers);
    } else {
      IdleStaysOrLeaves(s, step);
      OwedMoves(s, step, answers);
      if step.Respond? {
        AcksMore(Owed(s, answers), n, answers[step.id]);
      } else if step.ReadLine? && !IsAsync(s.wire[0]) {
        AcksLess(s.wire[0], Owed(Apply(s, step), answers), n);
      }
    }
  }

  /** Reading a line of the own answer; after the last one only the acknowledgements are left. */
  lemma ReadOwn(s: State, handled: bool, answers: map<nat, seq<string>>, own: seq<string>, acks: seq<string>, n: nat)
    requires Wf(s) && Fit(s, answers) && Enabled(s, ReadLine(handled)) && !IsAsync(s.wire[0])
    requires OwnThenAcks(s, answers, own, acks, n)
    ensures OnlyAcks(Apply(s, ReadLine(handled)), answers, n)
  {
    var t, line, answer := Apply(s, ReadLine(handled)), s.wire[0], answers[s.owner.id];
    OwedAfterRead(s, handled, answers);
    assert ProperReply(answer, s.commands[s.owner.id].until);
    assert own[0] == (own + acks)[0] == line && answer[|s.owner.buf|] == line;
    assert (own + acks)[1..] == own[1..] + acks;
    assert Owed(t, answers) == ([line] + Owed(t, answers))[1..];
    if |own| == 1 {
      assert Completes(s.commands[s.owner.id].until, line);
      assert Owed(t, answers) == [] + acks == acks;
    } else {
      assert !Completes(s.commands[s.owner.id].until, line);
      assert s.owner.buf + own == (s.owner.buf + [line]) + own[1..];
      assert OwnThenAcks(t, answers, own[1..], acks, n);
    }
  }

  lemma BusyKeepsOnlyAcks(s: State, step: Step, answers: map<nat, seq<string>>, n: nat)
    requires Inv(s) && ConsoleInv(s, answers) && s.owner.Busy? && OnlyAcks(s, answers, n)
    requires Enabled(s, step) && InOrder(s, step, answers) && !step.CommandTimeout?
    ensures OnlyAcks(Apply(s, step), answers, Counted(s, step, n))
  {
    var own, acks :| OwnThenAcks(s, answers, own, acks, n);
    var t := Apply(s, step);
    if step.ReadLine? && !IsAsync(s.wire[0]) {
      ReadOwn(s, step.handled, answers, own, acks, n);
    } else {
      OwedMoves(s, step, answers);
      BusyStaysOrLeaves(s, step);
      if step.Respond? {
        AcksMore(acks, n, answers[step.id]);
        assert own + acks + answers[step.id] == own + (acks + answers[step.id]);
        assert OwnThenAcks(t, answers, own, acks + answers[step.id], n + 1);
      } else if t.owner.Busy? {
        assert OwnThenAcks(t, answers, own, acks, n);
      }
    }
  }

  lemma BusyStaysOrLeaves(s: State, step: Step)
    requires Wf(s) && s.owner.Busy? && Enabled(s, step) && !step.CommandTimeout?
    requires step.ReadLine? ==> IsAsync(s.wire[0])
    ensures !step.Accept? && (Apply(s, step).owner == s.owner || Apply(s, step).owner.Leaving?)
  {}

  lemma {:induction false} OnlyAcksOwed(steps: seq<Step>, answers: map<nat, seq<string>>)
    requires IsRun(steps) && InOrderRun(steps, answers) && NoTimeout(steps) && AcksRead(steps)
    ensures OnlyAcks(After(steps), answers, Unread(steps))
    decreases |steps|
  {
    if steps == [] {
      assert Plain([]) == [];
    } else {
      var s, step := After(Before(steps)), Last(steps);
      OnlyAcksOwed(Before(steps), answers);
      RunKeepsInv(Before(steps));
      RunKeepsConsoleInv(Before(steps), answers);
      if s.owner.Idle? {
        IdleKeepsOnlyAcks(s, step, answers, Unread(Before(steps)));
      } else if s.owner.Busy? {
        BusyKeepsOnlyAcks(s, step, answers, Unread(Before(steps)));
      } else {
        GoneStaysGone(s, step);
      }
    }
  }

  lemma GoneStaysGone(s: State, step: Step)
    requires Wf(s) && Enabled(s, step) && !s.owner.Idle? && !s.owner.Busy?
    ensures !Apply(s, step).owner.Idle? && !Apply(s, step).owner.Busy?
  {}

  lemma {:induction false} AcksReadIsQuiet(steps: seq<Step>, answers: map<nat, seq<string>>, id: nat)
    requires IsRun(steps) && InOrderRun(steps, answers) && NoTimeout(steps) && AcksRead(steps)
    ensures QuietFor(steps, id)
    decreases |steps|
  {
    if steps != [] {
      AcksReadIsQuiet(Before(steps), answers, id);
      if Last(steps) == Accept(id, true) {
        OnlyAcksOwed(Before(steps), answers);
        RunKeepsConsoleInv(Before(steps), answers);
        AcksEmpty(Owed(After(Before(steps)), answers), 0);
        OwedIsSomething(After(Before(steps)), answers);
      }
    }
  }

  /** Without command timeouts it is enough that every command is written with no acknowledgement unread: then every
      reply is the caller's own, and an idle owner is owed nothing exactly when its count is zero. */
  lemma RepliesAreOwnWithoutTimeouts(steps: seq<Step>, answers: map<nat, seq<string>>, id: nat)
    requires IsRun(steps) && InOrderRun(steps, answers) && NoTimeout(steps) && AcksRead(steps)
    ensures id in After(steps).callers && After(steps).callers[id].Got? && After(steps).callers[id].outcome.Reply?
            ==> id in answers && After(steps).callers[id].outcome.lines == answers[id]
    ensures After(steps).owner.Idle? ==> (OwesNothing(After(steps)) <==> Unread(steps) == 0)
  {
    OnlyAcksOwed(steps, answers);
    RunKeepsConsoleInv(steps, answers);
    OwedIsSomething(After(steps), answers);
    if After(steps).owner.Idle? { AcksEmpty(Owed(After(steps), answers), Unread(steps)); }
    AcksReadIsQuiet(steps, answers, id);
    if id in After(steps).callers && After(steps).callers[id].Got? && After(steps).callers[id].outcome.Reply? {
      RepliesAreOwn(steps, answers, id);
    }
  }

  // ---- a command that is written too early ----

  function Remaining(s: State, answers: map<nat, seq<string>>): nat {
    2 * |Rest(s.asked, s.sent, answers)| + |s.wire|
  }

  /** One step on: the command is finished with what was due, or it is nearer to it. */
  ghost predicate Nearer(s: State, t: State, answers: map<nat, seq<string>>)
    requires Delivering(s, answers)
  {
    t.callers == s.callers &&
    if t.owner.Busy? then
      Delivering(t, answers) && t.owner.id == s.owner.id && Due(t, answers) == Due(s, answers)
      && Remaining(t, answers) < Remaining(s, answers)
    else s.owner.id in t.mailbox && t.mailbox[s.owner.id] == Reply(Due(s, answers))
  }

  lemma AnswerNearer(s: State, answers: map<nat, seq<string>>) returns (line: string)
    requires Inv(s) && ConsoleInv(s, answers) && Delivering(s, answers) && s.wire == []
    ensures Enabled(s, Answer(line)) && InOrder(s, Answer(line), answers) && Nearer(s, Apply(s, Answer(line)), answers)
  {
    OnlyRest(s, answers);
    line := AnswerShrinks(s, answers);
    StepKeepsDue(s, Answer(line), answers);
  }

  lemma OnlyRest(s: State, answers: map<nat, seq<string>>)
    requires s.wire == [] && Owed(s, answers) != []
    ensures s.asked != []
  {}

  lemma AnswerShrinks(s: State, answers: map<nat, seq<string>>) returns (line: string)
    requires ConsoleInv(s, answers) && s.asked != []
    ensures Enabled(s, Answer(line)) && InOrder(s, Answer(line), answers)
    ensures var t := Apply(s, Answer(line));
            Remaining(t, answers) < Remaining(s, answers) && t.callers == s.callers && t.owner == s.owner
  {
    line := NextLine(s, answers);
  }

  lemma ReadNearer(s: State, answers: map<nat, seq<string>>)
    requires Inv(s) && ConsoleInv(s, answers) && Delivering(s, answers) && s.wire != []
    ensures Enabled(s, ReadLine(true)) && Nearer(s, Apply(s, ReadLine(true)), answers)
  {
    ReadTakesLine(s, true);
    if IsAsync(s.wire[0]) { StepKeepsDue(s, ReadLine(true), answers); } else { ReadKeepsDue(s, true, answers); }
  }

  lemma StepNearer(s: State, answers: map<nat, seq<string>>) returns (step: Step)
    requires Inv(s) && ConsoleInv(s, answers) && Delivering(s, answers)
    ensures Enabled(s, step) && InOrder(s, step, answers) && Nearer(s, Apply(s, step), answers) && !step.CommandTimeout?
  {
    if s.wire != [] {
      step := ReadLine(true);
      ReadNearer(s, answers);
    } else {
      var line := AnswerNearer(s, answers);
      step := Answer(line);
    }
  }

  /** Let the console speak and the owner read until the outstanding command is finished. */
  lemma {:induction false} DeliverOwed(steps: seq<Step>, answers: map<nat, seq<string>>) returns (longer: seq<Step>)
    requires IsRun(steps) && InOrderRun(steps, answers) && Delivering(After(steps), answers)
    ensures Continues(longer, steps, answers) && (NoTimeout(steps) ==> NoTimeout(longer))
    ensures var s, t := After(steps), After(longer);
            t.callers == s.callers && s.owner.id in t.mailbox && t.mailbox[s.owner.id] == Reply(Due(s, answers))
    decreases Remaining(After(steps), answers)
  {
    var s := After(steps);
    RunKeepsInv(steps);
    RunKeepsConsoleInv(steps, answers);
    var step := StepNearer(s, answers);
    Extend(steps, step, answers);
    if Apply(s, step).owner.Busy? { longer := DeliverOwed(steps + [step], answers); } else { longer := steps + [step]; }
  }

  /** A command that is accepted now can be answered: with what it is due. */
  lemma DueIsDelivered(steps: seq<Step>, answers: map<nat, seq<string>>, id: nat) returns (longer: seq<Step>)
    requires IsRun(steps) && InOrderRun(steps, answers) && Enabled(After(steps), Accept(id, true))
    ensures ConsoleInv(After(steps), answers) && Continues(longer, steps + [Accept(id, true)], answers)
    ensures NoTimeout(steps) ==> NoTimeout(longer)
    ensures id in After(longer).callers && After(longer).callers[id] == Got(Reply(DueAt(After(steps), id, answers)))
  {
    RunKeepsInv(steps);
    RunKeepsConsoleInv(steps, answers);
    AcceptGets(After(steps), id, answers);
    Extend(steps, Accept(id, true), answers);
    var read := DeliverOwed(steps + [Accept(id, true)], answers);
    longer := ReceiveNow(read, answers, id);
  }

  lemma ReceiveNow(steps: seq<Step>, answers: map<nat, seq<string>>, id: nat) returns (longer: seq<Step>)
    requires IsRun(steps) && InOrderRun(steps, answers) && Enabled(After(steps), Receive(id))
    ensures Continues(longer, steps, answers) && (NoTimeout(steps) ==> NoTimeout(longer))
    ensures id in After(longer).callers && After(longer).callers[id] == Got(After(steps).mailbox[id])
  {
    Extend(steps, Receive(id), answers);
    longer := steps + [Receive(id)];
  }

  lemma ProperOne(until: Terminator, line: string)
    requires Completes(until, line) && line != "" && line[0] != '>'
    ensures ProperReply([line], until) && !IsAsync(line)
  {
    assert ">"[0] == '>';
  }

  /** Some answer to a command with this terminator that differs from a given one. */
  lemma OtherThan(until: Terminator, reply: seq<string>) returns (own: seq<string>)
    ensures ProperReply(own, until) && own != reply
  {
    match until
    case SingleLine =>
      ProperOne(until, "SUCCESS:");
      ProperOne(until, "ERROR:");
      assert ["SUCCESS:"][0] != ["ERROR:"][0];
      own := if reply == ["SUCCESS:"] then ["ERROR:"] else ["SUCCESS:"];
    case UntilEnd =>
      assert Trim("END") == "END" && Trim("") == "";
      ProperOne(until, "END");
      assert |["", "END"]| != |["END"]| && !IsAsync("");
      own := if reply == ["END"] then ["", "END"] else ["END"];
  }

  /** The answer to a command that is only offered may be another one. */
  lemma {:induction false} AnswerIsOpen(steps: seq<Step>, answers: map<nat, seq<string>>, id: nat, own: seq<string>)
    requires IsRun(steps) && InOrderRun(steps, answers)
    requires id in After(steps).callers && After(steps).callers[id].Offering? &&
        ProperReply(own, After(steps).commands[id].until)
    ensures InOrderRun(steps, answers[id := own])
    decreases |steps|
  {
    if steps != [] {
      var s, step := After(Before(steps)), Last(steps);
      RunKeepsConsoleInv(Before(steps), answers);
      CommandsKept(s, step);
      StillOffering(s, step, id);
      if id in s.commands {
        AnswerIsOpen(Before(steps), answers, id, own);
      } else {
        AnswerIsIrrelevant(Before(steps), answers, id, own);
      }
    }
  }

  lemma StillOffering(s: State, step: Step, id: nat)
    requires Wf(s) && Enabled(s, step) && id in Apply(s, step).callers && Apply(s, step).callers[id].Offering?
    ensures if id in s.commands then s.callers[id].Offering? else step.Call? && step.caller == id
  {}

  lemma {:induction false} AnswerIsIrrelevant(steps: seq<Step>, answers: map<nat, seq<string>>, id: nat,
                                              own: seq<string>)
    requires IsRun(steps) && InOrderRun(steps, answers) && id !in After(steps).commands
    ensures InOrderRun(steps, answers[id := own])
    decreases |steps|
  {
    if steps != [] {
      CommandsKept(After(Before(steps)), Last(steps));
      AnswerIsIrrelevant(Before(steps), answers, id, own);
    }
  }

  ghost predicate AgreeOff(others: map<nat, seq<string>>, answers: map<nat, seq<string>>, id: nat) {
    others.Keys == answers.Keys && forall k :: k in answers && k != id ==> others[k] == answers[k]
  }

  lemma {:induction false} RestIgnores(asked: seq<nat>, sent: seq<string>, answers: map<nat, seq<string>>, id: nat,
                                       own: seq<string>)
    requires forall i :: 0 <= i < |asked| ==> asked[i] != id
    ensures Rest(asked, sent, answers[id := own]) == Rest(asked, sent, answers)
    decreases |asked|
  {
    if asked != [] { RestIgnores(asked[1..], [], answers, id, own); }
  }

  /** From any state that owes lines, a command that is accepted now can be answered with something else, though the
      console goes on in order: what was owed comes first. */
  lemma OwedLinesGoAstray(steps: seq<Step>, answers: map<nat, seq<string>>, id: nat)
    returns (others: map<nat, seq<string>>, longer: seq<Step>)
    requires IsRun(steps) && InOrderRun(steps, answers) && After(steps).owner.Idle? && !OwesNothing(After(steps))
    requires id in After(steps).callers && After(steps).callers[id].Offering?
    ensures AgreeOff(others, answers, id) && Continues(longer, steps + [Accept(id, true)], others)
    ensures NoTimeout(steps) ==> NoTimeout(longer)
    ensures var s := After(longer);
            id in s.callers && s.callers[id].Got? && s.callers[id].outcome.Reply? && id in others
            && s.callers[id].outcome.lines != others[id]
  {
    RunKeepsInv(steps);
    RunKeepsConsoleInv(steps, answers);
    OfferingIsNew(After(steps), id);
    var own := AstrayOwn(After(steps), answers, id);
    others := answers[id := own];
    AnswerIsOpen(steps, answers, id, own);
    longer := DueIsDelivered(steps, others, id);
  }

  /** An answer for the offered command that what is due differs from. */
  lemma AstrayOwn(s: State, answers: map<nat, seq<string>>, id: nat) returns (own: seq<string>)
    requires ConsoleInv(s, answers) && !OwesNothing(s) && id in s.callers && s.callers[id].Offering?
    ensures ProperReply(own, s.commands[id].until) && Owed(s, answers[id := own]) == Owed(s, answers)
    ensures ConsoleInv(s, answers[id := own]) ==> DueAt(s, id, answers[id := own]) != own
  {
    var until, owed := s.commands[id].until, Owed(s, answers);
    OwedIsSomething(s, answers);
    own := OtherThan(until, if FirstComplete(owed, until) < |owed| then Upto(owed, until) else []);
    RestIgnores(s.asked, s.sent, answers, id, own);
    SomethingIsDue(owed, own, until);
    DueDiffers(owed, own, until);
  }

  lemma DueDiffers(owed: seq<string>, own: seq<string>, until: Terminator)
    requires owed != [] && ProperReply(own, until)
    requires FirstComplete(owed, until) < |owed| ==> own != Upto(owed, until)
    ensures FirstComplete(owed + own, until) < |owed + own| && DueNow(owed, own, until) != own
  {
    FirstOfBoth(owed, own, until);
    if FirstComplete(owed, until) < |owed| {
      FirstCompleteAppend(owed, own, until);
    } else {
      assert |DueNow(owed, own, until)| > |own|;
    }
  }

  // ---- exactly when ----

  /** Accepted now, the command is answered with its own answer in every continuation. */
  ghost predicate OwnFromHere(steps: seq<Step>, answers: map<nat, seq<string>>, id: nat) {
    forall others, longer: seq<Step> ::
      AgreeOff(others, answers, id) && Continues(longer, steps + [Accept(id, true)], others)
      && id in After(longer).callers && After(longer).callers[id].Got? && After(longer).callers[id].outcome.Reply?
      ==> id in others && After(longer).callers[id].outcome.lines == others[id]
  }

  /** Whatever the answer of an offered command is, the run so far is in order. */
  lemma InOrderSoFar(steps: seq<Step>, longer: seq<Step>, answers: map<nat, seq<string>>)
    requires IsRun(steps) && Continues(longer, steps, answers)
    ensures InOrderRun(steps, answers)
    decreases |longer|
  {
    if longer != steps { InOrderSoFar(steps, Before(longer), answers); }
  }

  lemma QuietIsOwn(steps: seq<Step>, longer: seq<Step>, answers: map<nat, seq<string>>, id: nat)
    requires IsRun(steps) && Enabled(After(steps), Accept(id, true)) && OwesNothing(After(steps))
    requires Continues(longer, steps + [Accept(id, true)], answers)
    requires id in After(longer).callers && After(longer).callers[id].Got? && After(longer).callers[id].outcome.Reply?
    ensures id in answers && After(longer).callers[id].outcome.lines == answers[id]
  {
    assert steps <= steps + [Accept(id, true)] <= longer;
    InOrderSoFar(steps, longer, answers);
    RunKeepsConsoleInv(steps, answers);
    OwedIsSomething(After(steps), answers);
    RepliesAreDue(longer, steps, id, answers);
    SomethingIsDue([], answers[id], After(steps).commands[id].until);
  }

  /** A command that the idle owner accepts is answered with its own answer in every continuation exactly when the
      console owes nothing at that moment. */
  lemma OwnExactlyWhenNothingOwed(steps: seq<Step>, answers: map<nat, seq<string>>, id: nat)
    requires IsRun(steps) && InOrderRun(steps, answers) && After(steps).owner.Idle?
    requires id in After(steps).callers && After(steps).callers[id].Offering?
    ensures OwnFromHere(steps, answers, id) <==> OwesNothing(After(steps))
  {
    RunKeepsInv(steps);
    OfferingIsNew(After(steps), id);
    if OwesNothing(After(steps)) {
      forall others, longer: seq<Step> |
        AgreeOff(others, answers, id) && Continues(longer, steps + [Accept(id, true)], others)
        && id in After(longer).callers && After(longer).callers[id].Got? && After(longer).callers[id].outcome.Reply?
        ensures id in others && After(longer).callers[id].outcome.lines == others[id]
      {
        QuietIsOwn(steps, longer, others, id);
      }
    } else {
      var others, longer := OwedLinesGoAstray(steps, answers, id);
    }
  }

  /** Without timeouts and with every earlier command written in time, the owner's count decides. */
  lemma OwnExactlyWhenAcksRead(steps: seq<Step>, answers: map<nat, seq<string>>, id: nat)
    requires IsRun(steps) && InOrderRun(steps, answers) && NoTimeout(steps) && AcksRead(steps) &&
        After(steps).owner.Idle?
    requires id in After(steps).callers && After(steps).callers[id].Offering?
    ensures OwnFromHere(steps, answers, id) <==> Unread(steps) == 0
  {
    OwnExactlyWhenNothingOwed(steps, answers, id);
    RepliesAreOwnWithoutTimeouts(steps, answers, id);
  }

  // ---- runs in which it happens ----

  /** A run with an orderly console that ends in `s`. */
  ghost predicate Leads(steps: seq<Step>, s: State, answers: map<nat, seq<string>>) {
    IsRun(steps) && InOrderRun(steps, answers) && After(steps) == s
  }

  lemma LeadsOn(steps: seq<Step>, s: State, step: Step, t: State, answers: map<nat, seq<string>>)
    requires Leads(steps, s, answers) && Wf(s) && Enabled(s, step) && InOrder(s, step, answers) && Apply(s, step) == t
    ensures Leads(steps + [step], t, answers)
  {
    Extend(steps, step, answers);
  }

  const STATUS := Command("status", SingleLine)

  /** Caller 0's command timed out and nothing of its answer came yet. */
  const TIMED_OUT := START.(commands := map[0 := STATUS], callers := map[0 := Waiting],
      mailbox := map[0 := CommandTimedOut],
    asked := [0], accepted := {0}, delivered := map[0 := CommandTimedOut])

  lemma TimesOut(answers: map<nat, seq<string>>) returns (steps: seq<Step>)
    requires 0 in answers && ProperReply(answers[0], SingleLine)
    ensures Leads(steps, TIMED_OUT, answers)
  {
    var called := START.(commands := map[0 := STATUS], callers := map[0 := Offering]);
    var busy := called.(callers := map[0 := Waiting], owner := Busy(0, []), asked := [0], accepted := {0});
    LeadsOn([], START, Call(0, STATUS), called, answers);
    LeadsOn([] + [Call(0, STATUS)], called, Accept(0, true), busy, answers);
    steps := [] + [Call(0, STATUS)] + [Accept(0, true)] + [CommandTimeout];
    LeadsOn([] + [Call(0, STATUS)] + [Accept(0, true)], busy, CommandTimeout, TIMED_OUT, answers);
  }

  /** After a command timeout the late answer to the first command is handed to the second caller, though the console
      answers in order. */
  lemma LateReplyGoesAstray(late: string, own: string) returns (steps: seq<Step>)
    requires IsAck(late) && IsAck(own)
    ensures IsRun(steps) && InOrderRun(steps, map[0 := [late], 1 := [own]])
    ensures var s := After(steps); 1 in s.callers && s.callers[1] == Got(Reply([late]))
  {
    var answers: map<nat, seq<string>> := map[0 := [late], 1 := [own]];
    var before := TimesOut(answers);
    var offered := TIMED_OUT.(commands := map[0 := STATUS, 1 := STATUS], callers := map[0 := Waiting, 1 := Offering]);
    LeadsOn(before, TIMED_OUT, Call(1, STATUS), offered, answers);
    OneOwed(offered, late, own);
    steps := DueIsDelivered(before + [Call(1, STATUS)], answers, 1);
  }

  /** One command is unanswered: a single-line command offered now is due its answer. */
  lemma OneOwed(s: State, first: string, own: string)
    requires Wf(s) && s.wire == [] && s.asked == [0] && s.sent == [] && IsAck(first) && IsAck(own)
    requires 1 in s.commands && s.commands[1].until.SingleLine?
    requires ConsoleInv(s, map[0 := [first], 1 := [own]])
    ensures DueAt(s, 1, map[0 := [first], 1 := [own]]) == [first]
  {
    var answers: map<nat, seq<string>> := map[0 := [first], 1 := [own]];
    assert Rest([0], [], answers) == [first] + Rest([], [], answers);
    assert Owed(s, answers) == [first];
    assert ([first] + [own])[0] == first;
    assert ([first] + [own])[..1] == [first];
  }

  const CONNECT := ">CLIENT:CONNECT,0,0"
  const END := ">CLIENT:ENV,END"
  const DENY := Command("client-deny 0 0 \"missing common name\"", SingleLine)
  const KILL := Command("kill alice", SingleLine)

  /** The owner has answered a block. */
  const DENIED := START.(commands := map[0 := DENY], callers := map[0 := Unattended], asked := [0])

  lemma Denies(answers: map<nat, seq<string>>) returns (steps: seq<Step>)
    requires 0 in answers && ProperReply(answers[0], SingleLine)
    ensures Leads(steps, DENIED, answers) && NoTimeout(steps)
  {
    assert IsAsync(CONNECT) && IsAsync(END);
    var s1, s3 := START.(wire := [CONNECT]), START.(wire := [END]);
    LeadsOn([], START, Emit(CONNECT), s1, answers);
    LeadsOn([] + [Emit(CONNECT)], s1, ReadLine(true), START, answers);
    LeadsOn([] + [Emit(CONNECT)] + [ReadLine(true)], START, Emit(END), s3, answers);
    steps := [] + [Emit(CONNECT)] + [ReadLine(true)] + [Emit(END)];
    LeadsOn(steps, s3, Respond(0, DENY.line), DENIED, answers);
    steps := steps + [Respond(0, DENY.line)];
  }

  /** Without any timeout the acknowledgement of the owner's own reply to a notification completes a caller's kill,
      whatever the console's answer to the kill is. */
  lemma AckGoesAstray(ack: string, own: string) returns (steps: seq<Step>)
    requires IsAck(ack) && IsAck(own)
    ensures IsRun(steps) && InOrderRun(steps, map[0 := [ack], 1 := [own]]) && NoTimeout(steps)
    ensures var s := After(steps);
            1 in s.callers && s.commands[1] == KILL && s.callers[1] == Got(Reply([ack]))
  {
    var answers: map<nat, seq<string>> := map[0 := [ack], 1 := [own]];
    var before := Denies(answers);
    var offered := DENIED.(commands := map[0 := DENY, 1 := KILL], callers := map[0 := Unattended, 1 := Offering]);
    LeadsOn(before, DENIED, Call(1, KILL), offered, answers);
    OneOwed(offered, ack, own);
    steps := DueIsDelivered(before + [Call(1, KILL)], answers, 1);
    CommandsStay(before + [Call(1, KILL)], steps, 1);
  }

  lemma {:induction false} CommandsStay(steps: seq<Step>, longer: seq<Step>, id: nat)
    requires IsRun(steps) && IsRun(longer) && steps <= longer && id in After(steps).commands
    ensures id in After(longer).commands && After(longer).commands[id] == After(steps).commands[id]
    decreases |longer|
  {
    if longer != steps {
      CommandsStay(steps, Before(longer), id);
      CommandsKept(After(Before(longer)), Last(longer));
    }
  }
}
