/**
 * The message composer: the typing notice with its pause timer, and the nicks that wait to be
 * replaced by their styled form on submit.
 */
module MessageInput {
  import opened Text

  datatype Status = Active | Paused | Done

  /** A call that announces a status; `delivered` when there was a connection to announce it on. */
  datatype Call = Call(status: Status, delivered: bool)

  /** A picked nick in the text, and what it is to become. */
  datatype Replacement = Replacement(start: int, end: int, display: string, styled: string)

  /** The tab the composer belongs to, which stays the same over a run. */
  datatype Tab = Tab(disabled: bool, named: bool, server: bool)

  predicate CanType(tab: Tab) {
    !tab.disabled && tab.named && !tab.server
  }

  /**
   * What the component remembers. `timer` is the last timer handle; `scheduled` holds the timers the
   * event loop has still to fire.
   */
  datatype State = State(message: string, pending: seq<Replacement>, typing: bool, timer: Option<nat>,
                         scheduled: set<nat>, nextTimer: nat, mounted: bool, calls: seq<Call>, submitted: seq<string>)

  const Fresh: State := State("", [], false, None, {}, 0, true, [], [])

  datatype Action =
    | Edit(text: string)
    | SetText(text: string)
    | PickNick(display: string, styled: string)
    | Fire(id: nat)
    | Submit
    | Unmount

  predicate Blank(text: string) {
    Trim(text) == ""
  }

  // ----- Typing notices -----

  function Announce(tab: Tab, s: State, status: Status, online: bool): State {
    s.(calls := s.calls + [Call(status, CanType(tab) && online)])
  }

  function ClearTimer(s: State): State {
    if s.timer.Some? then s.(scheduled := s.scheduled - {s.timer.value}, timer := None) else s
  }

  function StartTimer(s: State): State {
    var cleared := ClearTimer(s);
    cleared.(timer := Some(s.nextTimer), scheduled := cleared.scheduled + {s.nextTimer}, nextTimer := s.nextTimer + 1)
  }

  /** Leave the typing state with `status`, if in it. */
  function StopTyping(tab: Tab, s: State, status: Status, online: bool): State {
    if s.typing then Announce(tab, s, status, online).(typing := false) else s
  }

  function AfterTyping(tab: Tab, s: State, text: string, online: bool): State {
    if !Blank(text) && CanType(tab) then
      StartTimer(if s.typing then s else Announce(tab, s, Active, online).(typing := true))
    else if Blank(text) && s.typing then ClearTimer(StopTyping(tab, s, Done, online))
    else s
  }

  // ----- Nick replacements -----

  /** `r` stands where it was recorded in `text`. */
  predicate InPlace(text: string, r: Replacement) {
    StandsAt(text, r.display, r.start)
  }

  function ApplyOne(text: string, r: Replacement): string {
    var start := if InPlace(text, r) then r.start else Find(text, r.display);
    if start == -1 then text else text[..start] + r.styled + text[start + |r.display|..]
  }

  function ApplyAll(text: string, rs: seq<Replacement>): string
    decreases |rs|
  {
    if rs == [] then text else ApplyAll(ApplyOne(text, rs[0]), rs[1..])
  }

  method ApplyPendingNickReplacements(value: string, pending: seq<Replacement>) returns (next: string)
    ensures next == ApplyAll(value, pending)
  {
    next := value;
    if |pending| == 0 {
      return;
    }
    var i := 0;
    while i < |pending|
      invariant 0 <= i <= |pending|
      invariant ApplyAll(next, pending[i..]) == ApplyAll(value, pending)
    {
      assert pending[i..][0] == pending[i] && pending[i..][1..] == pending[i + 1..];
      next := ApplyNickReplacement(next, pending[i]);
      i := i + 1;
    }
  }

  /** One turn of the loop: at the recorded offset if the text is there, else at its first place. */
  method ApplyNickReplacement(text: string, replacement: Replacement) returns (next: string)
    ensures next == ApplyOne(text, replacement)
  {
    next := text;
    var start := replacement.start;
    if start < 0 || start + |replacement.display| > |next|
       || next[start..start + |replacement.display|] != replacement.display {
      start := Find(next, replacement.display);
    }
    if start == -1 {
      return;
    }
    var end := start + |replacement.display|;
    next := next[..start] + replacement.styled + next[end..];
  }

  /** `text.lastIndexOf(' ')`. */
  function LastSpace(text: string): (i: int)
    ensures -1 <= i < |text|
    ensures 0 <= i ==> text[i] == ' '
    ensures forall j :: i < j < |text| ==> text[j] != ' '
  {
    if text == "" then -1
    else if text[|text| - 1] == ' ' then |text| - 1
    else LastSpace(text[..|text| - 1])
  }

  /** Where one range goes; a range that overlaps the token is dropped. */
  function ShiftOne(r: Replacement, from: int, to: int, delta: int): seq<Replacement> {
    if r.start >= to then [r.(start := r.start + delta, end := r.end + delta)]
    else if r.end <= from then [r]
    else []
  }

  /** Pending ranges after the token at `from..to` was replaced by text that is `delta` longer. */
  function Shifted(pending: seq<Replacement>, from: int, to: int, delta: int): (shifted: seq<Replacement>)
    ensures |shifted| <= |pending|
  {
    if pending == [] then []
    else ShiftOne(pending[0], from, to, delta) + Shifted(pending[1..], from, to, delta)
  }

  /**
   * A nick suggestion taken for the last token of the message: the text before it, the token itself,
   * the text shown instead (with what it is to become), and the same with the space that follows.
   */
  datatype Picked = Picked(before: string, rawToken: string, shown: string, becomes: string, token: string)

  function PickFor(message: string, display: string, styled: string): (p: Picked)
    ensures p.shown <= p.token
  {
    var space := LastSpace(message);
    var rawToken := message[space + 1..];
    var prefix := if StartsWith(rawToken, '@') then "@" else "";
    var shown := prefix + display;
    var token := if shown != "" && shown[|shown| - 1] == ' ' then shown else shown + " ";
    Picked(message[..space + 1], rawToken, shown, prefix + styled, token)
  }

  /** Where the replaced token ends, and by how much the new one is longer. */
  function TokenEnd(p: Picked): nat {
    |p.before| + |p.rawToken|
  }

  function Growth(p: Picked): int {
    |p.token| - |p.rawToken|
  }

  function PickedReplacement(p: Picked): Replacement {
    Replacement(|p.before|, |p.before| + |p.shown|, p.shown, p.becomes)
  }

  function WithPick(pending: seq<Replacement>, p: Picked): seq<Replacement> {
    if p.becomes == p.shown then pending
    else Shifted(pending, |p.before|, TokenEnd(p), Growth(p)) + [PickedReplacement(p)]
  }

  function AfterPick(s: State, display: string, styled: string): State {
    var p := PickFor(s.message, display, styled);
    s.(message := p.before + p.token, pending := WithPick(s.pending, p))
  }

  // ----- Steps and runs -----

  predicate ShownIn(text: string, r: Replacement) {
    Includes(text, r.display)
  }

  /** The pending replacements that an edit leaves: those still shown in the text. */
  function Kept(pending: seq<Replacement>, text: string): seq<Replacement> {
    if Blank(text) then [] else Filter(pending, r => ShownIn(text, r))
  }

  function AfterEdit(tab: Tab, s: State, text: string, online: bool): State {
    AfterTyping(tab, s.(message := text), text, online).(pending := Kept(s.pending, text))
  }

  /** What is submitted; commands go out as typed. */
  function Outgoing(s: State): (text: string) {
    Trim(if StartsWith(Trim(s.message), '/') then s.message else ApplyAll(s.message, s.pending))
  }

  function AfterSubmit(tab: Tab, s: State, online: bool): State {
    if Blank(s.message) || tab.disabled then s else AfterSending(tab, s, Outgoing(s), online)
  }

  function AfterSending(tab: Tab, s: State, text: string, online: bool): State {
    var stopped := ClearTimer(StopTyping(tab, s, Done, online));
    stopped.(message := "", pending := [], submitted := s.submitted + [text])
  }

  function AfterFire(tab: Tab, s: State, id: nat, online: bool): State {
    if id !in s.scheduled then s
    else StopTyping(tab, s.(scheduled := s.scheduled - {id}), Paused, online)
  }

  function AfterUnmount(tab: Tab, s: State, online: bool): State {
    var said := if s.typing then Announce(tab, s, Done, online) else s;
    (if s.timer.Some? then said.(scheduled := s.scheduled - {s.timer.value}) else said).(mounted := false)
  }

  /** One event; after the component is gone nothing happens any more. */
  function After(tab: Tab, s: State, action: Action, online: bool): State {
    if !s.mounted then s
    else match action
      case Edit(text) => AfterEdit(tab, s, text, online)
      case SetText(text) => s.(message := text)
      case PickNick(display, styled) => AfterPick(s, display, styled)
      case Fire(id) => AfterFire(tab, s, id, online)
      case Submit => AfterSubmit(tab, s, online)
      case Unmount => AfterUnmount(tab, s, online)
  }

  /** An event, and whether there was a connection at the time. */
  datatype Event = Event(action: Action, online: bool)

  function Run(tab: Tab, events: seq<Event>): State {
    if events == [] then Fresh
    else After(tab, Run(tab, events[..|events| - 1]), events[|events| - 1].action, events[|events| - 1].online)
  }

  // ----- The handlers, updating in place -----

  class Composer {
    const tab: Tab
    var message: string
    var pendingNickReplacements: seq<Replacement>
    var isTyping: bool
    var typingTimeout: Option<nat>
    var scheduled: set<nat>
    var nextTimer: nat
    var mounted: bool
    var calls: seq<Call>
    var submitted: seq<string>

    function Now(): State
      reads this
    {
      State(message, pendingNickReplacements, isTyping, typingTimeout, scheduled, nextTimer, mounted, calls, submitted)
    }

    constructor (tab: Tab)
      ensures this.tab == tab && Now() == Fresh
    {
      this.tab := tab;
      message, pendingNickReplacements, isTyping, typingTimeout := "", [], false, None;
      scheduled, nextTimer, mounted, calls, submitted := {}, 0, true, [], [];
    }

    method SendTypingIndicator(status: Status, online: bool)
      modifies this`calls
      ensures Now() == Announce(tab, old(Now()), status, online)
    {
      calls := calls + [Call(status, CanType(tab) && online)];
    }

    method ClearTypingTimeout()
      modifies this`scheduled, this`typingTimeout
      ensures Now() == ClearTimer(old(Now()))
    {
      if typingTimeout.Some? {
        scheduled := scheduled - {typingTimeout.value};
        typingTimeout := None;
      }
    }

    method UpdateTyping(text: string, online: bool)
      modifies this
      ensures Now() == AfterTyping(tab, old(Now()), text, online)
    {
      if !Blank(text) && CanType(tab) {
        if !isTyping {
          SendTypingIndicator(Active, online);
          isTyping := true;
        }
        ClearTypingTimeout();
        typingTimeout := Some(nextTimer);
        scheduled := scheduled + {nextTimer};
        nextTimer := nextTimer + 1;
      } else if Blank(text) && isTyping {
        SendTypingIndicator(Done, online);
        isTyping := false;
        ClearTypingTimeout();
      }
    }

    method HandleChangeText(text: string, online: bool)
      requires mounted
      modifies this
      ensures Now() == AfterEdit(tab, old(Now()), text, online)
    {
      message := text;
      UpdateTyping(text, online);
      pendingNickReplacements := Kept(pendingNickReplacements, text);
    }

    method PickSuggestion(display: string, styled: string)
      requires mounted
      modifies this
      ensures Now() == AfterPick(old(Now()), display, styled)
    {
      var picked := PickFor(message, display, styled);
      message := picked.before + picked.token;
      if picked.becomes != picked.shown {
        var next := ShiftPending(|picked.before|, TokenEnd(picked), Growth(picked));
        pendingNickReplacements := next + [PickedReplacement(picked)];
      }
    }

    method ShiftPending(from: int, to: int, delta: int) returns (next: seq<Replacement>)
      ensures next == Shifted(pendingNickReplacements, from, to, delta)
    {
      next := [];
      var i := 0;
      while i < |pendingNickReplacements|
        invariant 0 <= i <= |pendingNickReplacements|
        invariant next + Shifted(pendingNickReplacements[i..], from, to, delta)
               == Shifted(pendingNickReplacements, from, to, delta)
      {
        var item := pendingNickReplacements[i];
        assert pendingNickReplacements[i..][1..] == pendingNickReplacements[i + 1..];
        var moved := [];
        if item.end <= from || item.start >= to {
          moved := [if item.start >= to then item.(start := item.start + delta, end := item.end + delta) else item];
        }
        assert moved == ShiftOne(item, from, to, delta);
        Regroup(next, moved, Shifted(pendingNickReplacements[i + 1..], from, to, delta));
        next := next + moved;
        i := i + 1;
      }
    }

    method FireTimer(id: nat, online: bool)
      requires mounted && id in scheduled
      modifies this
      ensures Now() == AfterFire(tab, old(Now()), id, online)
    {
      scheduled := scheduled - {id};
      StopAnnouncing(Paused, online);
    }

    method StopAnnouncing(status: Status, online: bool)
      modifies this`calls, this`isTyping
      ensures Now() == StopTyping(tab, old(Now()), status, online)
    {
      if isTyping {
        SendTypingIndicator(status, online);
        isTyping := false;
      }
    }

    method HandleSubmit(online: bool)
      requires mounted
      modifies this
      ensures Now() == AfterSubmit(tab, old(Now()), online)
    {
      if !Blank(message) && !tab.disabled {
        var text := StyledMessage();
        SendMessage(text, online);
      }
    }

    method SendMessage(text: string, online: bool)
      modifies this
      ensures Now() == AfterSending(tab, old(Now()), text, online)
    {
      StopAnnouncing(Done, online);
      submitted := submitted + [text];
      message := "";
      pendingNickReplacements := [];
      ClearTypingTimeout();
    }

    method StyledMessage() returns (text: string)
      ensures text == Outgoing(Now())
    {
      var withNickStyles := message;
      if !StartsWith(Trim(message), '/') {
        withNickStyles := ApplyPendingNickReplacements(message, pendingNickReplacements);
      }
      text := Trim(withNickStyles);
    }

    method Unmounted(online: bool)
      requires mounted
      modifies this
      ensures Now() == AfterUnmount(tab, old(Now()), online)
    {
      if isTyping {
        SendTypingIndicator(Done, online);
      }
      if typingTimeout.Some? {
        scheduled := scheduled - {typingTimeout.value};
      }
      mounted := false;
    }
  }

  // ----- The typing protocol, over every run -----

  /** The form (active (paused | done))*, with an active one still open or not; `None` when broken. */
  function Phase(statuses: seq<Status>): Option<bool> {
    if statuses == [] then Some(false)
    else
      var last := statuses[|statuses| - 1];
      var open := Phase(statuses[..|statuses| - 1]);
      if open.None? || open.value == last.Active? then None else Some(last.Active?)
  }

  function Statuses(calls: seq<Call>): (statuses: seq<Status>)
    ensures |statuses| == |calls|
    ensures forall i :: 0 <= i < |calls| ==> statuses[i] == calls[i].status
  {
    seq(|calls|, i requires 0 <= i < |calls| => calls[i].status)
  }

  predicate InProtocol(tab: Tab, s: State) {
    && Phase(Statuses(s.calls)) == Some(s.mounted && s.typing)
    && (s.typing ==> CanType(tab))
    && s.scheduled == (if s.mounted && s.typing && s.timer.Some? then {s.timer.value} else {})
    && (s.mounted && s.typing ==> s.timer.Some?)
    && (s.timer.Some? ==> s.timer.value < s.nextTimer)
  }

  lemma PhaseSnoc(calls: seq<Call>, call: Call)
    requires Phase(Statuses(calls)) == Some(!call.status.Active?)
    ensures Phase(Statuses(calls + [call])) == Some(call.status.Active?)
  {
    assert Statuses(calls + [call]) == Statuses(calls) + [call.status];
    assert (Statuses(calls) + [call.status])[..|calls|] == Statuses(calls);
  }

  /** The same of a state in the middle of a step, whatever its timer. */
  lemma StoppedInProtocol(tab: Tab, s: State, status: Status, online: bool)
    requires s.mounted && !status.Active? && Phase(Statuses(s.calls)) == Some(s.typing)
    ensures var t := StopTyping(tab, s, status, online);
            !t.typing && Phase(Statuses(t.calls)) == Some(false)
  {
    if s.typing {
      PhaseSnoc(s.calls, Call(status, CanType(tab) && online));
    }
  }

  lemma TypingInProtocol(tab: Tab, s: State, text: string, online: bool)
    requires s.mounted && InProtocol(tab, s)
    ensures InProtocol(tab, AfterTyping(tab, s, text, online))
  {
    if !Blank(text) && CanType(tab) {
      if !s.typing {
        PhaseSnoc(s.calls, Call(Active, CanType(tab) && online));
      }
    } else if Blank(text) && s.typing {
      StoppedInProtocol(tab, s, Done, online);
    }
  }

  lemma FireInProtocol(tab: Tab, s: State, id: nat, online: bool)
    requires s.mounted && InProtocol(tab, s)
    ensures InProtocol(tab, AfterFire(tab, s, id, online))
  {
    StoppedInProtocol(tab, s.(scheduled := s.scheduled - {id}), Paused, online);
  }

  lemma SubmitInProtocol(tab: Tab, s: State, online: bool)
    requires s.mounted && InProtocol(tab, s)
    ensures InProtocol(tab, AfterSubmit(tab, s, online))
  {
    StoppedInProtocol(tab, s, Done, online);
  }

  lemma UnmountInProtocol(tab: Tab, s: State, online: bool)
    requires s.mounted && InProtocol(tab, s)
    ensures InProtocol(tab, AfterUnmount(tab, s, online))
  {
    if s.typing {
      PhaseSnoc(s.calls, Call(Done, CanType(tab) && online));
    }
  }

  lemma StepInProtocol(tab: Tab, s: State, action: Action, online: bool)
    requires InProtocol(tab, s)
    ensures InProtocol(tab, After(tab, s, action, online))
  {
    if s.mounted {
      match action
      case Edit(text) => TypingInProtocol(tab, s.(message := text), text, online);
      case Fire(id) => FireInProtocol(tab, s, id, online);
      case Submit => SubmitInProtocol(tab, s, online);
      case Unmount => UnmountInProtocol(tab, s, online);
      case _ =>
    }
  }

  /**
   * Over every run of edits, picks, timer firings, submits and the unmount, the announced statuses
   * have the form (active (paused | done))*, open at most at the end, and the typing flag is up
   * exactly when one pause timer is pending.
   */
  lemma {:induction false} TypingProtocol(tab: Tab, events: seq<Event>)
    ensures InProtocol(tab, Run(tab, events))
    ensures var s := Run(tab, events);
            && (s.mounted ==> (s.typing <==> |s.scheduled| == 1))
            && |s.scheduled| <= 1
            && (!s.mounted ==> Phase(Statuses(s.calls)) == Some(false) && s.scheduled == {})
  {
    if events != [] {
      var n := |events| - 1;
      TypingProtocol(tab, events[..n]);
      StepInProtocol(tab, Run(tab, events[..n]), events[n].action, events[n].online);
    }
  }

  /** Why a status is announced. */
  predicate Because(action: Action, status: Status) {
    match status
    case Active => action.Edit? && !Blank(action.text)
    case Paused => action.Fire?
    case Done => (action.Edit? && Blank(action.text)) || action.Submit? || action.Unmount?
  }

  /** At most one call more than before, and that one because of the event. */
  ghost predicate Announces(s: State, t: State, action: Action) {
    t.calls == s.calls || exists call :: t.calls == s.calls + [call] && Because(action, call.status)
  }

  lemma StopAnnounces(tab: Tab, s: State, status: Status, online: bool, action: Action)
    requires Because(action, status)
    ensures Announces(s, StopTyping(tab, s, status, online), action)
  {
    assert s.typing ==> StopTyping(tab, s, status, online).calls == s.calls + [Call(status, CanType(tab) && online)];
  }

  lemma TypingAnnounces(tab: Tab, s: State, text: string, online: bool)
    ensures Announces(s, AfterTyping(tab, s, text, online), Edit(text))
  {
    if !Blank(text) {
      var call := Call(Active, CanType(tab) && online);
      assert CanType(tab) && !s.typing ==> AfterTyping(tab, s, text, online).calls == s.calls + [call];
    } else {
      StopAnnounces(tab, s, Done, online, Edit(text));
    }
  }

  /** An event announces at most one status, and each status has its own causes. */
  lemma AnnouncedBecause(tab: Tab, s: State, action: Action, online: bool)
    ensures Announces(s, After(tab, s, action, online), action)
  {
    if s.mounted {
      match action
      case Edit(text) => TypingAnnounces(tab, s.(message := text), text, online);
      case Fire(id) => StopAnnounces(tab, s.(scheduled := s.scheduled - {id}), Paused, online, action);
      case Submit => StopAnnounces(tab, s, Done, online, action);
      case Unmount =>
        var call := Call(Done, CanType(tab) && online);
        assert s.typing ==> AfterUnmount(tab, s, online).calls == s.calls + [call];
      case _ =>
    }
  }

  // ----- What reaches the server -----

  function Delivered(calls: seq<Call>): seq<Status> {
    if calls == [] then []
    else
      var last := calls[|calls| - 1];
      Delivered(calls[..|calls| - 1]) + if last.delivered then [last.status] else []
  }

  /** How many calls found no connection. */
  function Missed(calls: seq<Call>): nat {
    if calls == [] then 0
    else Missed(calls[..|calls| - 1]) + if calls[|calls| - 1].delivered then 0 else 1
  }

  predicate Even(n: nat) {
    n == 0 || !Even(n - 1)
  }

  lemma {:induction false} EvenSum(a: nat, b: nat)
    ensures Even(a + b) <==> (Even(a) <==> Even(b))
  {
    if b > 0 {
      EvenSum(a, b - 1);
    }
  }

  /** Between any two delivered calls, and before the first, an even number of calls was missed. */
  predicate MissedInPairs(calls: seq<Call>) {
    forall i :: 0 <= i < |calls| && calls[i].delivered ==> Even(Missed(calls[..i]))
  }

  lemma MissedInPairsSnoc(calls: seq<Call>, call: Call)
    ensures MissedInPairs(calls + [call]) <==> MissedInPairs(calls) && (call.delivered ==> Even(Missed(calls)))
  {
    var all := calls + [call];
    assert all[..|calls|] == calls;
    assert forall i :: 0 <= i < |calls| ==> all[..i] == calls[..i] && all[i] == calls[i];
    if MissedInPairs(all) {
      assert all[|calls|] == call;
    }
  }

  /** In the announced form the statuses take turns, so a notice is open after an odd number of them. */
  lemma {:induction false} PhaseCounts(statuses: seq<Status>)
    ensures Phase(statuses).Some? ==> Phase(statuses).value == !Even(|statuses|)
  {
    if statuses != [] {
      PhaseCounts(statuses[..|statuses| - 1]);
    }
  }

  lemma StatusesFront(calls: seq<Call>)
    requires calls != []
    ensures Statuses(calls) == Statuses(calls[..|calls| - 1]) + [calls[|calls| - 1].status]
  {
  }

  lemma PhaseOfSnoc(statuses: seq<Status>, status: Status)
    ensures Phase(statuses + [status])
         == if Phase(statuses) == Some(!status.Active?) then Some(status.Active?) else None
  {
    assert (statuses + [status])[..|statuses|] == statuses;
  }

  /** Of calls in the announced form, those that arrive have the form exactly when calls are missed in pairs. */
  lemma {:induction false} DeliveredForm(calls: seq<Call>)
    requires Phase(Statuses(calls)).Some?
    ensures |Delivered(calls)| + Missed(calls) == |calls|
    ensures Phase(Delivered(calls)).Some? <==> MissedInPairs(calls)
  {
    if calls != [] {
      var front, last := calls[..|calls| - 1], calls[|calls| - 1];
      StatusesFront(calls);
      PhaseOfSnoc(Statuses(front), last.status);
      DeliveredForm(front);
      PhaseCounts(Statuses(front));
      DeliveredFormSnoc(front, last);
      assert calls == front + [last];
    }
  }

  lemma DeliveredOfSnoc(front: seq<Call>, last: Call)
    ensures Delivered(front + [last]) == if last.delivered then Delivered(front) + [last.status] else Delivered(front)
    ensures Missed(front + [last]) == Missed(front) + if last.delivered then 0 else 1
  {
    assert (front + [last])[..|front|] == front;
  }

  lemma DeliveredFormSnoc(front: seq<Call>, last: Call)
    requires |Delivered(front)| + Missed(front) == |front| && (last.status.Active? <==> Even(|front|))
    requires Phase(Delivered(front)).Some? <==> MissedInPairs(front)
    ensures |Delivered(front + [last])| + Missed(front + [last]) == |front| + 1
    ensures Phase(Delivered(front + [last])).Some? <==> MissedInPairs(front + [last])
  {
    DeliveredOfSnoc(front, last);
    MissedInPairsSnoc(front, last);
    if last.delivered {
      DeliveredSnoc(Delivered(front), Missed(front), last.status);
    }
  }

  /** After as many calls in turn, the next status fits what was received if an even number was missed. */
  lemma DeliveredSnoc(received: seq<Status>, missed: nat, status: Status)
    requires status.Active? <==> Even(|received| + missed)
    ensures Phase(received + [status]).Some? <==> Phase(received).Some? && Even(missed)
  {
    PhaseCounts(received);
    EvenSum(|received|, missed);
    PhaseOfSnoc(received, status);
  }

  lemma DeliveredPhase(calls: seq<Call>, open: bool)
    requires Phase(Statuses(calls)) == Some(open)
    ensures Phase(Delivered(calls)).Some? <==> MissedInPairs(calls)
    ensures Phase(Delivered(calls)) == Some(open) <==> MissedInPairs(calls) && Even(Missed(calls))
  {
    DeliveredForm(calls);
    PhaseCounts(Statuses(calls));
    if MissedInPairs(calls) {
      PhaseCounts(Delivered(calls));
      EvenSum(|Delivered(calls)|, Missed(calls));
    }
  }

  /**
   * What the server receives has the announced form exactly when calls are missed in pairs, and it is
   * then left with the composer's own idea of an open notice exactly when their number is even.
   */
  lemma ServerSeesFormExactly(tab: Tab, events: seq<Event>)
    ensures var calls := Run(tab, events).calls;
            Phase(Delivered(calls)).Some? <==> MissedInPairs(calls)
    ensures var s := Run(tab, events);
            Phase(Delivered(s.calls)) == Some(s.mounted && s.typing)
            <==> MissedInPairs(s.calls) && Even(Missed(s.calls))
  {
    var s := Run(tab, events);
    TypingProtocol(tab, events);
    DeliveredPhase(s.calls, s.mounted && s.typing);
  }

  predicate AllDelivered(calls: seq<Call>) {
    forall i :: 0 <= i < |calls| ==> calls[i].delivered
  }

  lemma {:induction false} NoneMissed(calls: seq<Call>)
    requires AllDelivered(calls)
    ensures Missed(calls) == 0
  {
    if calls != [] {
      NoneMissed(calls[..|calls| - 1]);
    }
  }

  lemma StopDelivers(tab: Tab, s: State, status: Status)
    requires AllDelivered(s.calls) && (s.typing ==> CanType(tab))
    ensures AllDelivered(StopTyping(tab, s, status, true).calls)
  {
  }

  lemma TypingDelivers(tab: Tab, s: State, text: string)
    requires AllDelivered(s.calls) && (s.typing ==> CanType(tab))
    ensures AllDelivered(AfterTyping(tab, s, text, true).calls)
  {
    StopDelivers(tab, s, Done);
  }

  lemma OnlineStepDelivers(tab: Tab, s: State, action: Action)
    requires AllDelivered(s.calls) && (s.typing ==> CanType(tab))
    ensures AllDelivered(After(tab, s, action, true).calls)
  {
    if s.mounted {
      match action
      case Edit(text) => TypingDelivers(tab, s.(message := text), text);
      case Fire(id) => StopDelivers(tab, s.(scheduled := s.scheduled - {id}), Paused);
      case Submit => StopDelivers(tab, s, Done);
      case Unmount => StopDelivers(tab, s, Done);
      case _ =>
    }
  }

  lemma {:induction false} OnlineRunsDeliver(tab: Tab, events: seq<Event>)
    requires forall i :: 0 <= i < |events| ==> events[i].online
    ensures AllDelivered(Run(tab, events).calls)
  {
    if events != [] {
      var n := |events| - 1;
      OnlineRunsDeliver(tab, events[..n]);
      TypingProtocol(tab, events[..n]);
      OnlineStepDelivers(tab, Run(tab, events[..n]), events[n].action);
    }
  }

  /** With a connection all along, the server sees the protocol as announced. */
  lemma ServerSeesProtocol(tab: Tab, events: seq<Event>)
    requires forall i :: 0 <= i < |events| ==> events[i].online
    ensures var s := Run(tab, events);
            Phase(Delivered(s.calls)) == Some(s.mounted && s.typing)
  {
    var calls := Run(tab, events).calls;
    OnlineRunsDeliver(tab, events);
    ServerSeesFormExactly(tab, events);
    NoneMissed(calls);
    forall i | 0 <= i < |calls| ensures Missed(calls[..i]) == 0 {
      NoneMissed(calls[..i]);
    }
  }

  /** With a connection that comes up between the two calls, the server sees a pause of nothing. */
  lemma PauseWithoutActive()
    ensures var tab := Tab(false, true, false);
            var s := Run(tab, [Event(Edit("a"), false), Event(Fire(0), true)]);
            Delivered(s.calls) == [Paused] && Phase(Delivered(s.calls)) == None
  {
    var tab := Tab(false, true, false);
    var first, second := Event(Edit("a"), false), Event(Fire(0), true);
    assert [first, second][..1] == [first] && [first][..0] == [];
    var typed := Run(tab, [first]);
    assert Run(tab, []) == Fresh;
    assert typed == AfterEdit(tab, Fresh, "a", false);
    NotBlank();
    assert typed.calls == [Call(Active, false)];
    assert Run(tab, [first, second]) == AfterFire(tab, typed, 0, true);
    DeliveredPair(Call(Active, false), Call(Paused, true));
  }

  lemma NotBlank()
    ensures !Blank("a")
  {
    assert !IsSpace("a"[0]);
  }

  lemma DeliveredPair(first: Call, second: Call)
    requires !first.delivered && second.delivered && !second.status.Active?
    ensures Delivered([first] + [second]) == [second.status] && Phase([second.status]) == None
  {
    assert ([first] + [second])[..1] == [first];
    assert [first][..0] == [] && [second.status][..0] == [];
    assert Delivered([first]) == Delivered([]) == [];
  }

  // ----- Ranges, over every run -----

  predicate Apart(a: Replacement, b: Replacement) {
    a.end <= b.start || b.end <= a.start
  }

  predicate Disjoint(pending: seq<Replacement>) {
    forall i, j :: 0 <= i < j < |pending| ==> Apart(pending[i], pending[j])
  }

  /** A range is as long as the text it stands for. */
  predicate Measured(r: Replacement) {
    0 <= r.start && r.end == r.start + |r.display|
  }

  predicate GoodRanges(pending: seq<Replacement>) {
    Disjoint(pending) && forall i :: 0 <= i < |pending| ==> Measured(pending[i])
  }

  /** All of `pending` keep away from `from..to`. */
  predicate Outside(pending: seq<Replacement>, from: int, to: int) {
    forall i :: 0 <= i < |pending| ==> pending[i].end <= from || to <= pending[i].start
  }

  lemma FilterKeepsRanges(pending: seq<Replacement>, keep: Replacement -> bool)
    requires GoodRanges(pending)
    ensures GoodRanges(Filter(pending, keep))
  {
    FilterIsSelection(pending, keep);
  }

  /** Two ranges that are apart are apart after the move, whichever side of the token they are on. */
  lemma MovedApart(a: Replacement, b: Replacement, c: Replacement, d: Replacement, from: int, to: int, delta: int)
    requires Measured(a) && Measured(b) && Apart(a, b)
    requires 0 <= from <= to && from <= to + delta
    requires Moved(a, c, from, to, delta) && Moved(b, d, from, to, delta)
    ensures Apart(c, d)
  {
  }

  /** The ranges left are disjoint, and each stays on its side of the replaced token. */
  lemma {:induction false} ShiftedRanges(pending: seq<Replacement>, from: int, to: int, delta: int)
    requires GoodRanges(pending)
    requires 0 <= from <= to && from <= to + delta
    ensures GoodRanges(Shifted(pending, from, to, delta))
    ensures Outside(Shifted(pending, from, to, delta), from, to + delta)
  {
    if pending != [] {
      var moved, rest := ShiftOne(pending[0], from, to, delta), Shifted(pending[1..], from, to, delta);
      ShiftedRanges(pending[1..], from, to, delta);
      forall i | 0 <= i < |rest| && moved != [] ensures Apart(moved[0], rest[i]) {
        ShiftedFrom(pending[1..], from, to, delta, i);
        var k :| 0 <= k < |pending[1..]| && Moved(pending[1..][k], rest[i], from, to, delta);
        assert pending[1..][k] == pending[k + 1];
        MovedApart(pending[0], pending[k + 1], moved[0], rest[i], from, to, delta);
      }
      JoinRanges(moved, rest, from, to + delta);
    }
  }

  lemma JoinRanges(moved: seq<Replacement>, rest: seq<Replacement>, from: int, to: int)
    requires |moved| <= 1 && GoodRanges(moved) && GoodRanges(rest)
    requires Outside(moved, from, to) && Outside(rest, from, to)
    requires forall i :: 0 <= i < |rest| && moved != [] ==> Apart(moved[0], rest[i])
    ensures GoodRanges(moved + rest) && Outside(moved + rest, from, to)
  {
  }

  predicate Moved(r: Replacement, moved: Replacement, from: int, to: int, delta: int) {
    if r.start >= to then moved == r.(start := r.start + delta, end := r.end + delta) else r.end <= from && moved == r
  }

  lemma {:induction false} ShiftedFrom(pending: seq<Replacement>, from: int, to: int, delta: int, i: nat)
    requires i < |Shifted(pending, from, to, delta)|
    ensures exists k :: 0 <= k < |pending| && Moved(pending[k], Shifted(pending, from, to, delta)[i], from, to, delta)
  {
    var rest := Shifted(pending[1..], from, to, delta);
    var gone := |Shifted(pending, from, to, delta)| - |rest|;
    if i >= gone {
      ShiftedFrom(pending[1..], from, to, delta, i - gone);
      var k :| 0 <= k < |pending[1..]| && Moved(pending[1..][k], rest[i - gone], from, to, delta);
      assert Moved(pending[k + 1], Shifted(pending, from, to, delta)[i], from, to, delta);
    } else {
      assert Moved(pending[0], Shifted(pending, from, to, delta)[i], from, to, delta);
    }
  }

  lemma PickKeepsRanges(s: State, display: string, styled: string)
    requires GoodRanges(s.pending)
    ensures GoodRanges(AfterPick(s, display, styled).pending)
  {
    PickFits(s.pending, PickFor(s.message, display, styled));
  }

  lemma PickFits(pending: seq<Replacement>, p: Picked)
    requires GoodRanges(pending) && p.shown <= p.token
    ensures GoodRanges(WithPick(pending, p))
  {
    ShiftedRanges(pending, |p.before|, TokenEnd(p), Growth(p));
  }

  /** Over every run the pending ranges are pairwise disjoint, and as long as their texts. */
  lemma {:induction false} RangesStayDisjoint(tab: Tab, events: seq<Event>)
    ensures GoodRanges(Run(tab, events).pending)
  {
    if events != [] {
      var n := |events| - 1;
      var s := Run(tab, events[..n]);
      RangesStayDisjoint(tab, events[..n]);
      match events[n].action
      case PickNick(display, styled) => PickKeepsRanges(s, display, styled);
      case Edit(text) => FilterKeepsRanges(s.pending, r => ShownIn(text, r));
      case _ =>
    }
  }
}
