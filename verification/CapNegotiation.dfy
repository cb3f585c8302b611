/** What capability negotiation promises, over every run of server lines. */
module CapNegotiation {
  import opened Text
  import opened CapMessages
  import opened CapSession
  import Framing
  import IrcMessage
  import Sorting

  // ----- Safety and conservation -----

  /** How many times the end of negotiation was sent. */
  function Ends(log: seq<Outgoing>): nat {
    if log == [] then 0 else Ends(log[..|log| - 1]) + (if log[|log| - 1].CapEnd? then 1 else 0)
  }

  /** Every capability named in a request so far. */
  function Requested(log: seq<Outgoing>): set<string> {
    if log == [] then {}
    else Requested(log[..|log| - 1]) + (if log[|log| - 1].CapReq? then Elements(log[|log| - 1].caps) else {})
  }

  predicate Sound(s: State) {
    && Ends(s.log) == (if s.endSent then 1 else 0)
    && (s.endSent ==> s.lsDone)
    && (s.lsDone && s.pending == {} ==> s.endSent)
    && (s.pending != {} ==> s.lsDone)
    && Requested(s.log) <= s.pending + s.acknowledged + s.rejected
    && s.pending <= Requested(s.log)
  }

  /** A line appended in a step is the right one for the state the step leads to. */
  predicate RightlySent(before: State, o: Outgoing, after: State) {
    && (o.CapEnd? ==> !before.endSent && after.lsDone && after.pending == {})
    && (o.CapReq? ==> o.caps != [] && Elements(o.caps) <= after.available.Keys && Elements(o.caps) <= after.pending)
    && (o.CapList? ==> after.registered)
    && (o.MonitorList? ==> after.registered && "monitor" in after.acknowledged)
  }

  /** The log only grows, and what is appended is right. */
  predicate Appends(before: State, after: State) {
    && before.log <= after.log
    && forall i :: |before.log| <= i < |after.log| ==> RightlySent(before, after.log[i], after)
  }

  lemma LogSnoc(log: seq<Outgoing>, o: Outgoing)
    ensures Ends(log + [o]) == Ends(log) + (if o.CapEnd? then 1 else 0)
    ensures Requested(log + [o]) == Requested(log) + (if o.CapReq? then Elements(o.caps) else {})
  {
    assert (log + [o])[..|log|] == log;
  }

  lemma MaybeEndKeeps(s: State)
    requires Ends(s.log) == (if s.endSent then 1 else 0)
    requires s.endSent ==> s.lsDone
    requires s.pending != {} ==> s.lsDone
    requires Requested(s.log) <= s.pending + s.acknowledged + s.rejected
    requires s.pending <= Requested(s.log)
    ensures Sound(AfterMaybeEnd(s)) && Appends(s, AfterMaybeEnd(s))
  {
    LogSnoc(s.log, CapEnd);
  }

  lemma WantedAreAdvertised(fixture: Fixture, available: Caps)
    ensures Elements(Wanted(fixture, available)) <= available.Keys
  {
    var lowered := Lowered(fixture.requestCaps, fixture.lower);
    var keep := (cap: string) => cap in available;
    var wanted := Filter(lowered, keep);
    assert Wanted(fixture, available) == wanted;
    forall cap | cap in wanted ensures cap in available {
      var i :| 0 <= i < |wanted| && wanted[i] == cap;
      assert keep(wanted[i]);
    }
  }

  lemma SortedNamesAreTheSame(caps: seq<string>)
    ensures Elements(Sorting.Sort(caps, Sorting.CompareStrings)) == Elements(caps)
    ensures |Sorting.Sort(caps, Sorting.CompareStrings)| == |caps|
  {
    var sorted := Sorting.Sort(caps, Sorting.CompareStrings);
    Sorting.SortKeepsElements(caps, Sorting.CompareStrings);
    forall cap ensures cap in sorted <==> cap in caps {
      assert cap in multiset(sorted) <==> cap in multiset(caps);
    }
  }

  lemma RequestKeeps(s: State, wanted: seq<string>, sorted: seq<string>)
    requires Ends(s.log) == (if s.endSent then 1 else 0) && s.lsDone
    requires Requested(s.log) <= s.pending + s.acknowledged + s.rejected && s.pending <= Requested(s.log)
    requires Elements(wanted) <= s.available.Keys && wanted != []
    requires Elements(sorted) == Elements(wanted) && |sorted| == |wanted|
    ensures var t := s.(pending := s.pending + Elements(wanted), requested := sorted, log := s.log + [CapReq(sorted)]);
            Sound(t) && Appends(s, t)
  {
    LogSnoc(s.log, CapReq(sorted));
    assert wanted[0] in Elements(wanted);
  }

  lemma AskingKeeps(s: State, wanted: seq<string>)
    requires Ends(s.log) == (if s.endSent then 1 else 0)
    requires s.lsDone
    requires Requested(s.log) <= s.pending + s.acknowledged + s.rejected
    requires s.pending <= Requested(s.log)
    requires Elements(wanted) <= s.available.Keys
    ensures Sound(AfterAsking(s, wanted)) && Appends(s, AfterAsking(s, wanted))
  {
    var sorted := Sorting.Sort(wanted, Sorting.CompareStrings);
    if |wanted| > 0 {
      SortedNamesAreTheSame(wanted);
      RequestKeeps(s, wanted, sorted);
    } else {
      var asked := s.(pending := s.pending + Elements(wanted), requested := sorted);
      NothingAsked(s, wanted);
      MaybeEndKeeps(asked);
    }
  }

  lemma NothingAsked(s: State, wanted: seq<string>)
    requires wanted == []
    ensures s.pending + Elements(wanted) == s.pending
  {
  }

  lemma AnswerKeeps(s: State, tokens: seq<Token>, accepted: bool)
    requires Sound(s)
    ensures Sound(AfterAnswer(s, tokens, accepted)) && Appends(s, AfterAnswer(s, tokens, accepted))
  {
    var names := Names(tokens);
    MaybeEndKeeps(
      if accepted then s.(acknowledged := s.acknowledged + names, pending := s.pending - names)
      else s.(rejected := s.rejected + names, pending := s.pending - names));
  }

  lemma AdvertisedKeeps(fixture: Fixture, s: State, tokens: seq<Token>, ls: bool, continuation: bool)
    requires Sound(s)
    ensures var t := AfterAdvertised(fixture, s, tokens, ls, continuation); Sound(t) && Appends(s, t)
  {
    var seen := s.(lsReceived := s.lsReceived || ls, available := Advertise(s.available, tokens));
    if ls && !continuation {
      WantedAreAdvertised(fixture, seen.available);
      AskingKeeps(seen.(lsDone := true), Wanted(fixture, seen.available));
    }
  }

  lemma CapKeeps(fixture: Fixture, s: State, message: CapMessage)
    requires Sound(s)
    ensures Sound(AfterCap(fixture, s, message)) && Appends(s, AfterCap(fixture, s, message))
  {
    var tokens := ParseCapTokens(message.payload, fixture.lower);
    match message.subcommand
    case LS => AdvertisedKeeps(fixture, s, tokens, true, message.continuation);
    case NEW => AdvertisedKeeps(fixture, s, tokens, false, message.continuation);
    case ACK => AnswerKeeps(s, tokens, true);
    case NAK => AnswerKeeps(s, tokens, false);
    case _ =>
  }

  // ----- Lines that are not about capabilities -----

  /** Lines that neither request capabilities nor end negotiation. */
  predicate Quiet(lines: seq<Outgoing>) {
    forall i :: 0 <= i < |lines| ==> !lines[i].CapEnd? && !lines[i].CapReq?
  }

  /** `t` is `s` after registration news and quiet lines at most. */
  predicate Unmoved(s: State, t: State) {
    && t == s.(registered := t.registered, log := t.log)
    && s.log <= t.log
    && Quiet(t.log[|s.log|..])
    && forall i :: |s.log| <= i < |t.log| ==> RightlySent(s, t.log[i], t)
  }

  lemma {:induction false} QuietLines(log: seq<Outgoing>, more: seq<Outgoing>)
    requires Quiet(more)
    ensures Ends(log + more) == Ends(log) && Requested(log + more) == Requested(log)
  {
    if more == [] {
      assert log + more == log;
    } else {
      var front, last := more[..|more| - 1], more[|more| - 1];
      QuietLines(log, front);
      LogSnoc(log + front, last);
      assert log + more == log + front + [last];
    }
  }

  lemma UnmovedCounts(s: State, t: State)
    requires Unmoved(s, t)
    ensures Ends(t.log) == Ends(s.log) && Requested(t.log) == Requested(s.log)
    ensures Appends(s, t)
  {
    var more := t.log[|s.log|..];
    QuietLines(s.log, more);
    assert t.log == s.log + more;
  }

  lemma LineIsCapOrQuiet(fixture: Fixture, s: State, line: string)
    ensures var cap := CapOf(fixture, line); var t := AfterLine(fixture, s, line);
            if cap.Some? then t == AfterCap(fixture, s, cap.value) else Unmoved(s, t)
  {
    if line != "" {
      var message := IrcMessage.ParseLine(line, fixture.upper);
      var t := AfterLine(fixture, s, line);
      match message.command
      case "PING" => assert t.log[|s.log|..] == [Pong(if message.params == [] then "" else message.params[0])];
      case "CAP" =>
      case "001" => WelcomeIsQuiet(fixture, s);
      case _ =>
    }
  }

  lemma WelcomeIsQuiet(fixture: Fixture, s: State)
    ensures Unmoved(s, AfterWelcome(fixture, s))
  {
    var list := if fixture.listAfterRegistration then [CapList] else [];
    var monitor := if fixture.monitorList && "monitor" in s.acknowledged then [MonitorList] else [];
    var t := AfterWelcome(fixture, s);
    assert t.log[|s.log|..] == list + monitor;
    forall i | |s.log| <= i < |t.log| ensures RightlySent(s, t.log[i], t) {
      assert t.log[i] == (list + monitor)[i - |s.log|];
    }
  }

  lemma LineKeeps(fixture: Fixture, s: State, line: string)
    requires Sound(s)
    ensures Sound(AfterLine(fixture, s, line)) && Appends(s, AfterLine(fixture, s, line))
  {
    LineIsCapOrQuiet(fixture, s, line);
    var cap := CapOf(fixture, line);
    if cap.Some? {
      CapKeeps(fixture, s, cap.value);
    } else {
      UnmovedCounts(s, AfterLine(fixture, s, line));
    }
  }

  lemma HelloIsQuiet(gateway: Gateway, pass: string, nick: string, user: string)
    ensures Quiet(Hello(gateway, pass, nick, user))
  {
  }

  /**
   * Whatever lines the server sends: the end of negotiation is sent at most once and not before the
   * last LS reply; with the last LS reply seen and nothing pending it has been sent; and every
   * requested capability is pending, acknowledged or rejected.
   */
  lemma {:induction false} EveryRunIsSound(fixture: Fixture, hello: seq<Outgoing>, lines: seq<string>)
    requires Quiet(hello)
    ensures Sound(AfterLines(fixture, Start(hello), lines))
  {
    if lines == [] {
      QuietLines([], hello);
      assert [] + hello == hello;
    } else {
      EveryRunIsSound(fixture, hello, lines[..|lines| - 1]);
      LineKeeps(fixture, AfterLines(fixture, Start(hello), lines[..|lines| - 1]), lines[|lines| - 1]);
    }
  }

  /** The state after the first `k` lines of a run. */
  function Moment(fixture: Fixture, hello: seq<Outgoing>, lines: seq<string>, k: nat): State
    requires k <= |lines|
  {
    AfterLines(fixture, Start(hello), lines[..k])
  }

  /** Line `k` of the run made the runner send entry `i` of its log, rightly. */
  predicate SentAt(fixture: Fixture, hello: seq<Outgoing>, lines: seq<string>, i: nat, k: nat)
    requires k < |lines|
  {
    var before, after := Moment(fixture, hello, lines, k), Moment(fixture, hello, lines, k + 1);
    |before.log| <= i < |after.log| && RightlySent(before, after.log[i], after)
  }

  lemma SentAtLonger(fixture: Fixture, hello: seq<Outgoing>, lines: seq<string>, i: nat, k: nat, n: nat)
    requires k < n <= |lines| && SentAt(fixture, hello, lines[..n], i, k)
    ensures SentAt(fixture, hello, lines, i, k)
  {
    assert lines[..n][..k] == lines[..k] && lines[..n][..k + 1] == lines[..k + 1];
  }

  /**
   * Every line sent after the greeting was sent at one moment of the run: the end of negotiation
   * when the last LS reply had been seen and nothing was pending, a request when every capability
   * it names was advertised.
   */
  lemma {:induction false} EverySentLineIsRight(fixture: Fixture, hello: seq<Outgoing>, lines: seq<string>, i: nat)
    requires Quiet(hello)
    requires |hello| <= i < |AfterLines(fixture, Start(hello), lines).log|
    ensures exists k :: 0 <= k < |lines| && SentAt(fixture, hello, lines, i, k)
  {
    var n := |lines| - 1;
    assert lines != [];
    var before := AfterLines(fixture, Start(hello), lines[..n]);
    if i < |before.log| {
      EverySentLineIsRight(fixture, hello, lines[..n], i);
      var k :| 0 <= k < n && SentAt(fixture, hello, lines[..n], i, k);
      SentAtLonger(fixture, hello, lines, i, k, n);
    } else {
      EveryRunIsSound(fixture, hello, lines[..n]);
      LineKeeps(fixture, before, lines[n]);
      assert lines[..n + 1] == lines;
      assert SentAt(fixture, hello, lines, i, n);
    }
  }

  // ----- What a run remembers -----

  /** The capabilities named in the lines with one subcommand. */
  function NamedIn(fixture: Fixture, lines: seq<string>, subcommand: Subcommand): set<string> {
    if lines == [] then {}
    else
      var cap := CapOf(fixture, lines[|lines| - 1]);
      var before := NamedIn(fixture, lines[..|lines| - 1], subcommand);
      if cap.Some? && cap.value.subcommand == subcommand
      then before + Names(ParseCapTokens(cap.value.payload, fixture.lower))
      else before
  }

  lemma CapRemembers(fixture: Fixture, s: State, cap: CapMessage)
    ensures var t := AfterCap(fixture, s, cap);
            var names := Names(ParseCapTokens(cap.payload, fixture.lower));
            && t.acknowledged == (if cap.subcommand == ACK then s.acknowledged + names else s.acknowledged)
            && t.rejected == (if cap.subcommand == NAK then s.rejected + names else s.rejected)
            && t.listed == (if cap.subcommand == LIST then s.listed + names else s.listed)
  {
    var tokens := ParseCapTokens(cap.payload, fixture.lower);
    match cap.subcommand
    case LS => AdvertisedAnswersNothing(fixture, s, tokens, true, cap.continuation);
    case NEW => AdvertisedAnswersNothing(fixture, s, tokens, false, cap.continuation);
    case ACK => AnswerIsRemembered(s, tokens, true);
    case NAK => AnswerIsRemembered(s, tokens, false);
    case _ =>
  }

  lemma AskingAnswersNothing(s: State, wanted: seq<string>)
    ensures var t := AfterAsking(s, wanted);
            t.acknowledged == s.acknowledged && t.rejected == s.rejected && t.listed == s.listed
  {
  }

  lemma AdvertisedAnswersNothing(fixture: Fixture, s: State, tokens: seq<Token>, ls: bool, continuation: bool)
    ensures var t := AfterAdvertised(fixture, s, tokens, ls, continuation);
            t.acknowledged == s.acknowledged && t.rejected == s.rejected && t.listed == s.listed
  {
    var seen := s.(lsReceived := s.lsReceived || ls, available := Advertise(s.available, tokens), lsDone := true);
    AskingAnswersNothing(seen, Wanted(fixture, seen.available));
  }

  lemma AnswerIsRemembered(s: State, tokens: seq<Token>, accepted: bool)
    ensures var t := AfterAnswer(s, tokens, accepted);
            && t.acknowledged == (if accepted then s.acknowledged + Names(tokens) else s.acknowledged)
            && t.rejected == (if accepted then s.rejected else s.rejected + Names(tokens))
            && t.listed == s.listed
  {
  }

  /** Acknowledged, rejected and listed are the capabilities of the ACK, the NAK and the LIST lines of the run. */
  lemma {:induction false} AnswersAreRemembered(fixture: Fixture, hello: seq<Outgoing>, lines: seq<string>)
    ensures var t := AfterLines(fixture, Start(hello), lines);
            && t.acknowledged == NamedIn(fixture, lines, ACK)
            && t.rejected == NamedIn(fixture, lines, NAK)
            && t.listed == NamedIn(fixture, lines, LIST)
  {
    if lines != [] {
      var n := |lines| - 1;
      var s := AfterLines(fixture, Start(hello), lines[..n]);
      AnswersAreRemembered(fixture, hello, lines[..n]);
      LineIsCapOrQuiet(fixture, s, lines[n]);
      var cap := CapOf(fixture, lines[n]);
      if cap.Some? {
        CapRemembers(fixture, s, cap.value);
      }
    }
  }

  /** Of several tokens with one name the last one counts. */
  lemma {:induction false} LastValueWins(available: Caps, tokens: seq<Token>, name: string)
    ensures name in Advertise(available, tokens) <==> name in available || name in Names(tokens)
    ensures forall i :: 0 <= i < |tokens| && tokens[i].name == name && name !in Names(tokens[i + 1..]) ==>
      name in Advertise(available, tokens) && Advertise(available, tokens)[name] == tokens[i].value
    ensures name in available && name !in Names(tokens) ==>
      name in Advertise(available, tokens) && Advertise(available, tokens)[name] == available[name]
    decreases |tokens|
  {
    if tokens != [] {
      var next := available[tokens[0].name := tokens[0].value];
      LastValueWins(next, tokens[1..], name);
      NamesOfRest(tokens);
      forall i | 0 <= i < |tokens| && tokens[i].name == name && name !in Names(tokens[i + 1..])
        ensures name in Advertise(available, tokens) && Advertise(available, tokens)[name] == tokens[i].value
      {
        if i > 0 {
          assert tokens[1..][i - 1] == tokens[i] && tokens[1..][i - 1 + 1..] == tokens[i + 1..];
        }
      }
    }
  }

  lemma NamesOfRest(tokens: seq<Token>)
    requires tokens != []
    ensures Names(tokens) == {tokens[0].name} + Names(tokens[1..])
  {
    assert forall i :: 0 < i < |tokens| ==> tokens[i] == tokens[1..][i - 1];
  }

  /** The request after the last LS reply names every wanted capability that is advertised, sorted, and no other. */
  lemma RequestIsExact(fixture: Fixture, s: State)
    ensures var t := AfterRequest(fixture, s);
            && Elements(t.requested) == Elements(Lowered(fixture.requestCaps, fixture.lower)) * s.available.Keys
            && Sorting.Sorted(t.requested, Sorting.CompareStrings)
            && (t.requested != [] ==> t.log == s.log + [CapReq(t.requested)])
  {
    var lowered := Lowered(fixture.requestCaps, fixture.lower);
    var wanted := Wanted(fixture, s.available);
    WantedAreAdvertised(fixture, s.available);
    WantedExactly(lowered, s.available);
    SortedNamesAreTheSame(wanted);
    Sorting.StringComparer();
    Sorting.SortIsStable(wanted, Sorting.CompareStrings);
  }

  lemma WantedExactly(lowered: seq<string>, available: Caps)
    ensures Elements(Filter(lowered, cap => cap in available)) == Elements(lowered) * available.Keys
  {
    var keep := (cap: string) => cap in available;
    var wanted := Filter(lowered, keep);
    assert Filter(lowered, cap => cap in available) == wanted;
    forall cap ensures cap in wanted <==> cap in lowered && cap in available {
      if cap in wanted {
        var i :| 0 <= i < |wanted| && wanted[i] == cap;
        assert keep(wanted[i]);
      }
      if cap in lowered && cap in available {
        var i :| 0 <= i < |lowered| && lowered[i] == cap;
        assert keep(lowered[i]);
      }
    }
  }

  /** A PING is answered with a PONG of the same token, and changes nothing else. */
  lemma PingIsAnswered(fixture: Fixture, s: State, prefix: Option<string>, token: string)
    requires fixture.upper("PING") == "PING" && (prefix.Some? ==> ' ' !in prefix.value)
    ensures AfterLine(fixture, s, IrcMessage.Print([], prefix, "PING", [token])) == s.(log := s.log + [Pong(token)])
  {
    IrcMessage.ParseOfPrint([], prefix, "PING", [token], fixture.upper);
    assert |IrcMessage.PrintPrefixed(prefix, "PING", [token])| >= 4;
  }

  // ----- Progress -----

  predicate IsLs(fixture: Fixture, line: string) {
    var cap := CapOf(fixture, line);
    cap.Some? && cap.value.subcommand == LS
  }

  /** The capabilities a message settles: those named by an ACK or a NAK. */
  function CapSettles(fixture: Fixture, cap: CapMessage): set<string> {
    if cap.subcommand == ACK || cap.subcommand == NAK
    then Names(ParseCapTokens(cap.payload, fixture.lower))
    else {}
  }

  function Settles(fixture: Fixture, line: string): set<string> {
    var cap := CapOf(fixture, line);
    if cap.Some? then CapSettles(fixture, cap.value) else {}
  }

  function AllSettled(fixture: Fixture, lines: seq<string>): set<string> {
    if lines == [] then {}
    else AllSettled(fixture, lines[..|lines| - 1]) + Settles(fixture, lines[|lines| - 1])
  }

  lemma NothingLeft(pending: set<string>, settled: set<string>)
    ensures pending - settled == {} <==> pending <= settled
  {
    if pending - settled == {} {
      forall cap | cap in pending ensures cap in settled {
        assert cap !in pending - settled;
      }
    }
  }

  lemma WaitingAnswer(s: State, tokens: seq<Token>, accepted: bool)
    requires s.lsDone && !s.endSent
    ensures var t := AfterAnswer(s, tokens, accepted);
            && t.lsDone && t.pending == s.pending - Names(tokens)
            && (t.endSent <==> s.pending <= Names(tokens))
            && t.log == if t.endSent then s.log + [CapEnd] else s.log
  {
    NothingLeft(s.pending, Names(tokens));
  }

  lemma WaitingOther(fixture: Fixture, s: State, cap: CapMessage)
    requires cap.subcommand != LS && cap.subcommand != ACK && cap.subcommand != NAK
    ensures var t := AfterCap(fixture, s, cap);
            t.lsDone == s.lsDone && t.pending == s.pending && t.endSent == s.endSent && t.log == s.log
  {
  }

  lemma WaitingCap(fixture: Fixture, s: State, cap: CapMessage)
    requires s.lsDone && !s.endSent && s.pending != {} && cap.subcommand != LS
    ensures var t := AfterCap(fixture, s, cap);
            && t.lsDone && t.pending == s.pending - CapSettles(fixture, cap)
            && (t.endSent <==> s.pending <= CapSettles(fixture, cap))
            && t.log == if t.endSent then s.log + [CapEnd] else s.log
  {
    if cap.subcommand == ACK || cap.subcommand == NAK {
      var tokens := ParseCapTokens(cap.payload, fixture.lower);
      WaitingAnswer(s, tokens, cap.subcommand == ACK);
      assert AfterCap(fixture, s, cap) == AfterAnswer(s, tokens, cap.subcommand == ACK);
      assert CapSettles(fixture, cap) == Names(tokens);
    } else {
      WaitingOther(fixture, s, cap);
      NothingLeft(s.pending, {});
    }
  }

  /** What a line other than an LS reply does to a negotiation that waits for answers. */
  lemma WaitingStep(fixture: Fixture, s: State, line: string)
    requires s.lsDone && !s.endSent && s.pending != {} && !IsLs(fixture, line)
    ensures var t := AfterLine(fixture, s, line);
            && t.lsDone
            && t.pending == s.pending - Settles(fixture, line)
            && (t.endSent <==> s.pending <= Settles(fixture, line))
            && (t.endSent ==> t.log == s.log + [CapEnd])
            && Ends(t.log) == Ends(s.log) + (if t.endSent then 1 else 0)
  {
    LineIsCapOrQuiet(fixture, s, line);
    var cap := CapOf(fixture, line);
    if cap.Some? {
      WaitingCap(fixture, s, cap.value);
      LogSnoc(s.log, CapEnd);
    } else {
      UnmovedCounts(s, AfterLine(fixture, s, line));
    }
  }

  lemma EndedCap(fixture: Fixture, s: State, cap: CapMessage)
    requires s.endSent && cap.subcommand != LS
    ensures var t := AfterCap(fixture, s, cap);
            t.endSent && t.lsDone == s.lsDone && t.pending == s.pending - CapSettles(fixture, cap) && t.log == s.log
  {
  }

  lemma EndedStep(fixture: Fixture, s: State, line: string)
    requires s.lsDone && s.endSent && !IsLs(fixture, line)
    ensures var t := AfterLine(fixture, s, line);
            && t.lsDone && t.endSent
            && t.pending == s.pending - Settles(fixture, line)
            && Ends(t.log) == Ends(s.log)
  {
    LineIsCapOrQuiet(fixture, s, line);
    var cap := CapOf(fixture, line);
    if cap.Some? {
      EndedCap(fixture, s, cap.value);
    } else {
      UnmovedCounts(s, AfterLine(fixture, s, line));
    }
  }

  /** Where a negotiation that waited in state `s` is when the capabilities in `settled` were answered. */
  predicate Progressed(s: State, settled: set<string>, t: State) {
    && t.lsDone
    && t.pending == s.pending - settled
    && (t.endSent <==> s.pending <= settled)
    && Ends(t.log) == Ends(s.log) + (if t.endSent then 1 else 0)
  }

  lemma ProgressStep(fixture: Fixture, s: State, settled: set<string>, t: State, line: string)
    requires !s.endSent && Progressed(s, settled, t) && !IsLs(fixture, line)
    ensures Progressed(s, settled + Settles(fixture, line), AfterLine(fixture, t, line))
  {
    if t.endSent {
      EndedStep(fixture, t, line);
    } else {
      NothingLeft(s.pending, settled);
      WaitingStep(fixture, t, line);
    }
  }

  /**
   * After the last LS reply, with answers outstanding: as long as no further LS reply comes, the end
   * of negotiation has been sent after a stretch of lines exactly when the ACK and NAK lines in it
   * name every pending capability, in whatever order, batching, repetition or letter case.
   */
  lemma {:induction false} AnswersEndNegotiation(fixture: Fixture, s: State, lines: seq<string>)
    requires s.lsDone && !s.endSent && s.pending != {}
    requires forall i :: 0 <= i < |lines| ==> !IsLs(fixture, lines[i])
    ensures Progressed(s, AllSettled(fixture, lines), AfterLines(fixture, s, lines))
  {
    if lines == [] {
      NothingLeft(s.pending, {});
    } else {
      var n := |lines| - 1;
      AnswersEndNegotiation(fixture, s, lines[..n]);
      ProgressStep(fixture, s, AllSettled(fixture, lines[..n]), AfterLines(fixture, s, lines[..n]), lines[n]);
    }
  }

  lemma SettlingStep(fixture: Fixture, s: State, pending: set<string>, settled: set<string>, line: string)
    requires s.lsDone && !s.endSent && s.pending == pending - settled != {} && !IsLs(fixture, line)
    ensures AfterLine(fixture, s, line).log == s.log + [CapEnd] <==> pending <= settled + Settles(fixture, line)
  {
    WaitingStep(fixture, s, line);
    LogSnoc(s.log, CapEnd);
    assert s.pending <= Settles(fixture, line) <==> pending <= settled + Settles(fixture, line);
  }

  lemma LinesSnoc(fixture: Fixture, s: State, lines: seq<string>, line: string)
    ensures AfterLines(fixture, s, lines + [line]) == AfterLine(fixture, AfterLines(fixture, s, lines), line)
  {
    assert (lines + [line])[..|lines|] == lines;
  }

  /** It is sent by the very line that settles the last pending capability, and is all that line sends. */
  lemma LastAnswerEndsNegotiation(fixture: Fixture, s: State, lines: seq<string>, line: string)
    requires s.lsDone && !s.endSent && s.pending != {}
    requires forall i :: 0 <= i < |lines| ==> !IsLs(fixture, lines[i])
    requires !IsLs(fixture, line)
    requires !(s.pending <= AllSettled(fixture, lines))
    ensures var before := AfterLines(fixture, s, lines);
            AfterLines(fixture, s, lines + [line]).log == before.log + [CapEnd]
            <==> s.pending <= AllSettled(fixture, lines) + Settles(fixture, line)
  {
    AnswersEndNegotiation(fixture, s, lines);
    NothingLeft(s.pending, AllSettled(fixture, lines));
    SettlingStep(fixture, AfterLines(fixture, s, lines), s.pending, AllSettled(fixture, lines), line);
    LinesSnoc(fixture, s, lines, line);
  }

  /** Until then every line that names a pending capability leaves fewer pending, and no line leaves more. */
  lemma AnswersShrinkPending(fixture: Fixture, s: State, line: string)
    requires s.lsDone && !s.endSent && s.pending != {} && !IsLs(fixture, line)
    ensures var t := AfterLine(fixture, s, line);
            && |t.pending| <= |s.pending|
            && (|t.pending| < |s.pending| <==> exists cap :: cap in s.pending && cap in Settles(fixture, line))
  {
    WaitingStep(fixture, s, line);
    Shrinks(s.pending, Settles(fixture, line));
    if cap :| cap in s.pending && cap in Settles(fixture, line) {
      assert cap in s.pending * Settles(fixture, line);
    }
  }

  lemma Shrinks(pending: set<string>, settled: set<string>)
    ensures |pending - settled| <= |pending|
    ensures |pending - settled| < |pending| <==> pending * settled != {}
  {
    assert pending == (pending - settled) + (pending * settled);
  }

  // ----- A list of capabilities over several LS lines -----

  lemma {:induction false} AdvertiseInTwo(available: Caps, a: seq<Token>, b: seq<Token>)
    ensures Advertise(available, a + b) == Advertise(Advertise(available, a), b)
    decreases |a|
  {
    if a == [] {
      assert a + b == b;
    } else {
      assert (a + b)[1..] == a[1..] + b;
      AdvertiseInTwo(available[a[0].name := a[0].value], a[1..], b);
    }
  }

  lemma {:induction false} LinesInTwo(fixture: Fixture, s: State, a: seq<string>, b: seq<string>)
    ensures AfterLines(fixture, s, a + b) == AfterLines(fixture, AfterLines(fixture, s, a), b)
  {
    if b == [] {
      assert a + b == a;
    } else {
      var n := |b| - 1;
      LinesInTwo(fixture, s, a, b[..n]);
      CutAt(b, n);
      Regroup(a, b[..n], b[n..]);
      assert b[n..] == [b[n]];
      LinesSnoc(fixture, s, a + b[..n], b[n]);
    }
  }

  function LsParams(client: string, payload: string, continuation: bool): seq<string> {
    [client, "LS"] + if continuation then ["*", payload] else [payload]
  }

  /** An LS reply as the server writes it. */
  function LsLine(prefix: Option<string>, client: string, payload: string, continuation: bool): string {
    IrcMessage.Print([], prefix, "CAP", LsParams(client, payload, continuation))
  }

  /** All but the last reply carry the star. */
  function LsLines(prefix: Option<string>, client: string, payloads: seq<string>): seq<string> {
    if payloads == [] then []
    else [LsLine(prefix, client, payloads[0], |payloads| > 1)] + LsLines(prefix, client, payloads[1..])
  }

  /** A client identifier and a server prefix that fit in a line, and sane case mapping of the two words. */
  predicate Addressed(fixture: Fixture, prefix: Option<string>, client: string) {
    && (prefix.Some? ==> ' ' !in prefix.value)
    && ' ' !in client && !StartsWith(client, ':')
    && fixture.upper("CAP") == "CAP" && fixture.upper("LS") == "LS"
    && !IsSubcommand(client, fixture.upper)
  }

  lemma LsParamsAreRead(fixture: Fixture, client: string, payload: string, continuation: bool)
    requires fixture.upper("LS") == "LS" && !IsSubcommand(client, fixture.upper) && payload != "*"
    ensures GetCapMessage(LsParams(client, payload, continuation), fixture.upper)
         == Some(CapMessage(LS, payload, continuation))
  {
    var after := if continuation then ["*", payload] else [payload];
    ReadAsSentExactly(client, "LS", after, fixture.upper);
    assert Filter([payload], NotStar) == [payload];
    assert continuation ==> after[1..] == [payload];
  }

  lemma LsLineParses(fixture: Fixture, prefix: Option<string>, client: string, payload: string, continuation: bool)
    requires Addressed(fixture, prefix, client)
    ensures var line := LsLine(prefix, client, payload, continuation);
            && line != ""
            && IrcMessage.ParseLine(line, fixture.upper)
            == IrcMessage.Message(map[], prefix, "CAP", LsParams(client, payload, continuation))
  {
    var params := LsParams(client, payload, continuation);
    assert IrcMessage.GoodParams(params);
    IrcMessage.ParseOfPrint([], prefix, "CAP", params, fixture.upper);
    assert |IrcMessage.PrintPrefixed(prefix, "CAP", params)| >= 3;
  }

  lemma LsLineIsRead(fixture: Fixture, s: State, prefix: Option<string>, client: string, payload: string,
                     continuation: bool)
    requires Addressed(fixture, prefix, client) && payload != "*"
    ensures AfterLine(fixture, s, LsLine(prefix, client, payload, continuation))
         == AfterAdvertised(fixture, s, ParseCapTokens(payload, fixture.lower), true, continuation)
  {
    LsLineParses(fixture, prefix, client, payload, continuation);
    LsParamsAreRead(fixture, client, payload, continuation);
    LineIsCapOrQuiet(fixture, s, LsLine(prefix, client, payload, continuation));
  }

  lemma TwoReplies(fixture: Fixture, s: State, a: seq<Token>, b: seq<Token>)
    ensures AfterAdvertised(fixture, AfterAdvertised(fixture, s, a, true, true), b, true, false)
         == AfterAdvertised(fixture, s, a + b, true, false)
  {
    AdvertiseInTwo(s.available, a, b);
  }

  /**
   * A capability list cut over any number of LS replies leaves the runner exactly where one reply
   * with the whole list does: same capabilities with the same values, same single request.
   */
  lemma {:induction false} SplitListIsWholeList(fixture: Fixture, s: State, prefix: Option<string>, client: string,
                                                payloads: seq<string>)
    requires Addressed(fixture, prefix, client)
    requires payloads != [] && forall i :: 0 <= i < |payloads| ==> payloads[i] != "*"
    ensures AfterLines(fixture, s, LsLines(prefix, client, payloads))
         == AfterLine(fixture, s, LsLine(prefix, client, Join(payloads, " "), false))
    decreases |payloads|
  {
    var first, rest := payloads[0], payloads[1..];
    var line := LsLine(prefix, client, first, |payloads| > 1);
    OneLine(fixture, s, line);
    if rest == [] {
      assert LsLines(prefix, client, payloads) == [line] + [];
    } else {
      var next := AfterLine(fixture, s, line);
      LinesInTwo(fixture, s, [line], LsLines(prefix, client, rest));
      SplitListIsWholeList(fixture, next, prefix, client, rest);
      JoinedIsNoStar(rest);
      JoinedReply(fixture, s, prefix, client, first, Join(rest, " "));
    }
  }

  lemma JoinedReply(fixture: Fixture, s: State, prefix: Option<string>, client: string, first: string, rest: string)
    requires Addressed(fixture, prefix, client) && first != "*" && rest != "*"
    ensures AfterLine(fixture, AfterLine(fixture, s, LsLine(prefix, client, first, true)),
                      LsLine(prefix, client, rest, false))
         == AfterLine(fixture, s, LsLine(prefix, client, first + " " + rest, false))
  {
    var joined := first + " " + rest;
    assert joined[|first|] == ' ';
    LsLineIsRead(fixture, s, prefix, client, first, true);
    LsLineIsRead(fixture, AfterLine(fixture, s, LsLine(prefix, client, first, true)), prefix, client, rest, false);
    LsLineIsRead(fixture, s, prefix, client, joined, false);
    TokensOfJoined(first, rest, fixture.lower);
    TwoReplies(fixture, s, ParseCapTokens(first, fixture.lower), ParseCapTokens(rest, fixture.lower));
  }

  lemma OneLine(fixture: Fixture, s: State, line: string)
    ensures AfterLines(fixture, s, [line]) == AfterLine(fixture, s, line)
  {
    assert [line][..0] == [];
  }

  lemma JoinedIsNoStar(payloads: seq<string>)
    requires payloads != [] && forall i :: 0 <= i < |payloads| ==> payloads[i] != "*"
    ensures Join(payloads, " ") != "*"
  {
    if |payloads| > 1 {
      var joined := Join(payloads, " ");
      assert joined == payloads[0] + " " + Join(payloads[1..], " ");
      assert joined[|payloads[0]|] == ' ';
    }
  }

  // ----- Chunks -----

  /** Where a session is after a `data` event: what it remembers, and the carried text. */
  datatype Carried = Carried(state: State, tail: string)

  function AfterData(fixture: Fixture, c: Carried, chunk: string): Carried {
    var framed := Framing.Feed(c.tail, chunk);
    Carried(AfterLines(fixture, c.state, framed.lines), framed.tail)
  }

  function AfterChunks(fixture: Fixture, c: Carried, chunks: seq<string>): Carried
    decreases |chunks|
  {
    if chunks == [] then c else AfterChunks(fixture, AfterData(fixture, c, chunks[0]), chunks[1..])
  }

  lemma {:induction false} ChunksAreLines(fixture: Fixture, c: Carried, chunks: seq<string>)
    ensures var framed := Framing.FeedAll(c.tail, chunks);
            AfterChunks(fixture, c, chunks) == Carried(AfterLines(fixture, c.state, framed.lines), framed.tail)
    decreases |chunks|
  {
    if chunks != [] {
      var first := Framing.Feed(c.tail, chunks[0]);
      var rest := Framing.FeedAll(first.tail, chunks[1..]);
      ChunksAreLines(fixture, AfterData(fixture, c, chunks[0]), chunks[1..]);
      LinesInTwo(fixture, c.state, first.lines, rest.lines);
    }
  }

  /** However the stream is cut, the session ends in the same place and has sent the same lines. */
  lemma SessionIgnoresChunking(fixture: Fixture, hello: seq<Outgoing>, chunks: seq<string>, others: seq<string>)
    requires Framing.Concat(chunks) == Framing.Concat(others)
    ensures AfterChunks(fixture, Carried(Start(hello), ""), chunks)
         == AfterChunks(fixture, Carried(Start(hello), ""), others)
  {
    Framing.ChunkingIsIrrelevant("", chunks);
    Framing.ChunkingIsIrrelevant("", others);
    ChunksAreLines(fixture, Carried(Start(hello), ""), chunks);
    ChunksAreLines(fixture, Carried(Start(hello), ""), others);
  }
}
