/**
 * The client side of IRCv3 capability negotiation, as one run of the interop runner drives it:
 * a pure step function over what the run remembers, and the closures that update it in place.
 */
module CapSession {
  import opened Text
  import opened CapMessages
  import Framing
  import IrcMessage
  import Sorting

  /** What a fixture asks for, with the engine's case mappings. */
  datatype Fixture = Fixture(requestCaps: seq<string>, listAfterRegistration: bool, monitorList: bool,
                             upper: string -> string, lower: string -> string)

  /** The lines the runner sends. */
  datatype Outgoing =
    | WebIrc(password: string, gateway: string, hostname: string, address: string)
    | CapLs
    | Pass(password: string)
    | Nick(nick: string)
    | User(user: string)
    | CapReq(caps: seq<string>)
    | CapEnd
    | Pong(token: string)
    | CapList
    | MonitorList

  function Wire(o: Outgoing): string {
    match o
    case WebIrc(password, gateway, hostname, address) =>
      "WEBIRC " + password + " " + gateway + " " + hostname + " " + address
    case CapLs => "CAP LS 302"
    case Pass(password) => "PASS " + password
    case Nick(nick) => "NICK " + nick
    case User(user) => "USER " + user + " 0 * :AndroidIRCX IRCv3 interop probe"
    case CapReq(caps) => "CAP REQ :" + Join(caps, " ")
    case CapEnd => "CAP END"
    case Pong(token) => "PONG :" + token
    case CapList => "CAP LIST"
    case MonitorList => "MONITOR L"
  }

  /** On the wire only `CapEnd` reads as the line that ends negotiation. */
  lemma OnlyCapEndEnds(o: Outgoing)
    ensures Wire(o) == "CAP END" <==> o.CapEnd?
  {
    var w := Wire(o);
    match o
    case WebIrc(_, _, _, _) => assert w[0] == 'W';
    case Pass(_) => assert w[0] == 'P';
    case Nick(_) => assert w[0] == 'N';
    case User(_) => assert w[0] == 'U';
    case Pong(_) => assert w[0] == 'P';
    case CapReq(_) => assert w[4] == 'R';
    case CapLs => assert w[4] == 'L';
    case CapList => assert w[4] == 'L';
    case MonitorList => assert w[0] == 'M';
    case CapEnd =>
  }

  /** The WEBIRC settings of a fixture; an empty text means not configured. */
  datatype Gateway = Gateway(password: string, name: string, clientAddress: string, clientHostname: string)

  /** What the `connect` event sends. */
  function Hello(gateway: Gateway, pass: string, nick: string, user: string): seq<Outgoing> {
    var hostname := if gateway.clientHostname != "" then gateway.clientHostname else gateway.clientAddress;
    (if gateway.password != "" && gateway.name != "" && gateway.clientAddress != ""
     then [WebIrc(gateway.password, gateway.name, hostname, gateway.clientAddress)] else [])
    + [CapLs]
    + (if pass != "" then [Pass(pass)] else [])
    + [Nick(nick), User(user)]
  }

  type Caps = map<string, Option<string>>

  datatype State = State(available: Caps, pending: set<string>, acknowledged: set<string>, rejected: set<string>,
                         listed: set<string>, requested: seq<string>, lsReceived: bool, lsDone: bool, endSent: bool,
                         registered: bool, log: seq<Outgoing>)

  /** The connection is open and `hello` has been sent. */
  function Start(hello: seq<Outgoing>): State {
    State(map[], {}, {}, {}, {}, [], false, false, false, false, hello)
  }

  // ----- One CAP message -----

  function Advertise(available: Caps, tokens: seq<Token>): Caps
    decreases |tokens|
  {
    if tokens == [] then available
    else Advertise(available[tokens[0].name := tokens[0].value], tokens[1..])
  }

  function Names(tokens: seq<Token>): set<string> {
    set i | 0 <= i < |tokens| :: tokens[i].name
  }

  function Lowered(caps: seq<string>, lower: string -> string): (lowered: seq<string>)
    ensures |lowered| == |caps|
  {
    if caps == [] then [] else [lower(caps[0])] + Lowered(caps[1..], lower)
  }

  function Elements(caps: seq<string>): set<string> {
    set cap | cap in caps
  }

  function Wanted(fixture: Fixture, available: Caps): seq<string> {
    Filter(Lowered(fixture.requestCaps, fixture.lower), cap => cap in available)
  }

  function AfterMaybeEnd(s: State): State {
    if !s.lsDone || s.endSent || |s.pending| > 0 then s
    else s.(endSent := true, log := s.log + [CapEnd])
  }

  /** `sort` works in place, so the request line lists the wanted names in order. */
  function AfterAsking(s: State, wanted: seq<string>): State {
    var sorted := Sorting.Sort(wanted, Sorting.CompareStrings);
    var asked := s.(pending := s.pending + Elements(wanted), requested := sorted);
    if |wanted| > 0 then asked.(log := s.log + [CapReq(sorted)]) else AfterMaybeEnd(asked)
  }

  function AfterRequest(fixture: Fixture, s: State): State {
    AfterAsking(s, Wanted(fixture, s.available))
  }

  /** An LS reply, or a NEW message when `ls` is false. Only the last LS reply leads to a request. */
  function AfterAdvertised(fixture: Fixture, s: State, tokens: seq<Token>, ls: bool, continuation: bool): State {
    var seen := s.(lsReceived := s.lsReceived || ls, available := Advertise(s.available, tokens));
    if ls && !continuation then AfterRequest(fixture, seen.(lsDone := true)) else seen
  }

  /** An ACK, or a NAK when `accepted` is false. */
  function AfterAnswer(s: State, tokens: seq<Token>, accepted: bool): State {
    var names := Names(tokens);
    AfterMaybeEnd(
      if accepted then s.(acknowledged := s.acknowledged + names, pending := s.pending - names)
      else s.(rejected := s.rejected + names, pending := s.pending - names))
  }

  function AfterCap(fixture: Fixture, s: State, message: CapMessage): State {
    var tokens := ParseCapTokens(message.payload, fixture.lower);
    match message.subcommand
    case LS => AfterAdvertised(fixture, s, tokens, true, message.continuation)
    case NEW => AfterAdvertised(fixture, s, tokens, false, message.continuation)
    case ACK => AfterAnswer(s, tokens, true)
    case NAK => AfterAnswer(s, tokens, false)
    case LIST => s.(listed := s.listed + Names(tokens))
    case DEL => s.(available := s.available - Names(tokens))
    case REQ => s
  }

  // ----- One line -----

  /** The CAP message a line carries, if it carries one. */
  function CapOf(fixture: Fixture, line: string): Option<CapMessage> {
    if line == "" then None
    else
      var message := IrcMessage.ParseLine(line, fixture.upper);
      if message.command == "CAP" then GetCapMessage(message.params, fixture.upper) else None
  }

  function AfterWelcome(fixture: Fixture, s: State): State {
    var list := if fixture.listAfterRegistration then [CapList] else [];
    var monitor := if fixture.monitorList && "monitor" in s.acknowledged then [MonitorList] else [];
    s.(registered := true, log := s.log + (list + monitor))
  }

  function AfterLine(fixture: Fixture, s: State, line: string): State {
    if line == "" then s
    else
      var message := IrcMessage.ParseLine(line, fixture.upper);
      match message.command
      case "PING" => s.(log := s.log + [Pong(if message.params == [] then "" else message.params[0])])
      case "CAP" =>
        var cap := GetCapMessage(message.params, fixture.upper);
        if cap.None? then s else AfterCap(fixture, s, cap.value)
      case "001" => AfterWelcome(fixture, s)
      case _ => s
  }

  function AfterLines(fixture: Fixture, s: State, lines: seq<string>): State {
    if lines == [] then s
    else AfterLine(fixture, AfterLines(fixture, s, lines[..|lines| - 1]), lines[|lines| - 1])
  }

  // ----- The closures, updating in place -----

  class Session {
    const fixture: Fixture
    var availableCaps: Caps
    var pendingCaps: set<string>
    var acknowledgedCaps: set<string>
    var rejectedCaps: set<string>
    var capList: set<string>
    var requestedCaps: seq<string>
    var capLsReceived: bool
    var capLsDone: bool
    var capEndSent: bool
    var registered: bool
    var sent: seq<Outgoing>
    var buffer: string

    function Now(): State
      reads this
    {
      State(availableCaps, pendingCaps, acknowledgedCaps, rejectedCaps, capList, requestedCaps,
            capLsReceived, capLsDone, capEndSent, registered, sent)
    }

    constructor (fixture: Fixture, hello: seq<Outgoing>)
      ensures this.fixture == fixture && Now() == Start(hello) && buffer == ""
    {
      this.fixture := fixture;
      availableCaps, pendingCaps, acknowledgedCaps, rejectedCaps, capList := map[], {}, {}, {}, {};
      requestedCaps, capLsReceived, capLsDone, capEndSent, registered := [], false, false, false, false;
      sent, buffer := hello, "";
    }

    method Send(line: Outgoing)
      modifies this`sent
      ensures sent == old(sent) + [line]
    {
      sent := sent + [line];
    }

    method MaybeEndCapNegotiation()
      modifies this
      ensures Now() == AfterMaybeEnd(old(Now())) && buffer == old(buffer)
    {
      if !capLsDone || capEndSent || |pendingCaps| > 0 {
        return;
      }
      capEndSent := true;
      Send(CapEnd);
    }

    method RequestAdvertisedCaps()
      modifies this
      ensures Now() == AfterRequest(fixture, old(Now())) && buffer == old(buffer)
    {
      Ask(Wanted(fixture, availableCaps));
    }

    method Ask(requested: seq<string>)
      modifies this
      ensures Now() == AfterAsking(old(Now()), requested) && buffer == old(buffer)
    {
      AddPending(requested);
      requestedCaps := Sorting.Sort(requested, Sorting.CompareStrings);
      if |requested| > 0 {
        Send(CapReq(requestedCaps));
      } else {
        MaybeEndCapNegotiation();
      }
    }

    method AddPending(requested: seq<string>)
      modifies this`pendingCaps
      ensures pendingCaps == old(pendingCaps) + Elements(requested)
    {
      var i := 0;
      while i < |requested|
        invariant 0 <= i <= |requested|
        invariant pendingCaps == old(pendingCaps) + Elements(requested[..i])
      {
        pendingCaps := pendingCaps + {requested[i]};
        assert requested[..i + 1] == requested[..i] + [requested[i]];
        i := i + 1;
      }
      assert requested[..i] == requested;
    }

    method HandleCap(message: Option<CapMessage>)
      modifies this
      ensures Now() == (if message.None? then old(Now()) else AfterCap(fixture, old(Now()), message.value))
      ensures buffer == old(buffer)
    {
      if message.None? {
        return;
      }
      var subcommand := message.value.subcommand;
      var tokens := ParseCapTokens(message.value.payload, fixture.lower);
      if subcommand == LS || subcommand == NEW {
        HandleAdvertised(tokens, subcommand == LS, message.value.continuation);
      } else if subcommand == ACK || subcommand == NAK {
        HandleAnswer(tokens, subcommand == ACK);
      } else if subcommand == LIST {
        ListTokens(tokens);
      } else if subcommand == DEL {
        DropTokens(tokens);
      }
    }

    method HandleAdvertised(tokens: seq<Token>, ls: bool, continuation: bool)
      modifies this
      ensures Now() == AfterAdvertised(fixture, old(Now()), tokens, ls, continuation) && buffer == old(buffer)
    {
      capLsReceived := capLsReceived || ls;
      AdvertiseTokens(tokens);
      if ls && !continuation {
        capLsDone := true;
        RequestAdvertisedCaps();
      }
    }

    method HandleAnswer(tokens: seq<Token>, accepted: bool)
      modifies this
      ensures Now() == AfterAnswer(old(Now()), tokens, accepted) && buffer == old(buffer)
    {
      SettleTokens(tokens, accepted);
      MaybeEndCapNegotiation();
    }

    method AdvertiseTokens(tokens: seq<Token>)
      modifies this`availableCaps
      ensures availableCaps == Advertise(old(availableCaps), tokens)
    {
      var i := 0;
      while i < |tokens|
        invariant 0 <= i <= |tokens|
        invariant Advertise(availableCaps, tokens[i..]) == Advertise(old(availableCaps), tokens)
      {
        assert tokens[i..][1..] == tokens[i + 1..];
        availableCaps := availableCaps[tokens[i].name := tokens[i].value];
        i := i + 1;
      }
    }

    method SettleTokens(tokens: seq<Token>, accepted: bool)
      modifies this`pendingCaps, this`acknowledgedCaps, this`rejectedCaps
      ensures pendingCaps == old(pendingCaps) - Names(tokens)
      ensures acknowledgedCaps == if accepted then old(acknowledgedCaps) + Names(tokens) else old(acknowledgedCaps)
      ensures rejectedCaps == if accepted then old(rejectedCaps) else old(rejectedCaps) + Names(tokens)
    {
      var i := 0;
      while i < |tokens|
        invariant 0 <= i <= |tokens|
        invariant pendingCaps == old(pendingCaps) - Names(tokens[..i])
        invariant acknowledgedCaps
               == if accepted then old(acknowledgedCaps) + Names(tokens[..i]) else old(acknowledgedCaps)
        invariant rejectedCaps == if accepted then old(rejectedCaps) else old(rejectedCaps) + Names(tokens[..i])
      {
        NamesOfNext(tokens, i);
        if accepted {
          acknowledgedCaps := acknowledgedCaps + {tokens[i].name};
        } else {
          rejectedCaps := rejectedCaps + {tokens[i].name};
        }
        pendingCaps := pendingCaps - {tokens[i].name};
        i := i + 1;
      }
      assert tokens[..i] == tokens;
    }

    method ListTokens(tokens: seq<Token>)
      modifies this`capList
      ensures capList == old(capList) + Names(tokens)
    {
      var i := 0;
      while i < |tokens|
        invariant 0 <= i <= |tokens|
        invariant capList == old(capList) + Names(tokens[..i])
      {
        NamesOfNext(tokens, i);
        capList := capList + {tokens[i].name};
        i := i + 1;
      }
      assert tokens[..i] == tokens;
    }

    method DropTokens(tokens: seq<Token>)
      modifies this`availableCaps
      ensures availableCaps == old(availableCaps) - Names(tokens)
    {
      var i := 0;
      while i < |tokens|
        invariant 0 <= i <= |tokens|
        invariant availableCaps == old(availableCaps) - Names(tokens[..i])
      {
        NamesOfNext(tokens, i);
        availableCaps := availableCaps - {tokens[i].name};
        i := i + 1;
      }
      assert tokens[..i] == tokens;
    }

    method HandleLine(line: string)
      modifies this
      ensures Now() == AfterLine(fixture, old(Now()), line) && buffer == old(buffer)
    {
      if line == "" {
        return;
      }
      var message := IrcMessage.ParseIrcLine(line, fixture.upper);
      if message.command == "PING" {
        Send(Pong(if message.params == [] then "" else message.params[0]));
        return;
      }
      if message.command == "CAP" {
        HandleCap(GetCapMessage(message.params, fixture.upper));
        return;
      }
      if message.command == "001" {
        registered := true;
        if fixture.listAfterRegistration {
          Send(CapList);
        }
        if fixture.monitorList && "monitor" in acknowledgedCaps {
          Send(MonitorList);
        }
      }
    }

    /** The `data` event. */
    method OnData(chunk: string)
      modifies this
      ensures var framed := Framing.Feed(old(buffer), chunk);
              Now() == AfterLines(fixture, old(Now()), framed.lines) && buffer == framed.tail
    {
      buffer := buffer + chunk;
      var pieces := Framing.SplitLines(buffer);
      buffer := pieces[|pieces| - 1];
      var lines := pieces[..|pieces| - 1];
      ghost var cut := Framing.DropReturns(lines);
      DropReturnsAt(lines);
      var i := 0;
      while i < |lines|
        invariant 0 <= i <= |lines| == |cut|
        invariant Now() == AfterLines(fixture, old(Now()), cut[..i])
        invariant buffer == pieces[|pieces| - 1]
      {
        HandleLine(Framing.DropReturn(lines[i]));
        assert cut[..i + 1][..i] == cut[..i] && cut[..i + 1][i] == cut[i];
        i := i + 1;
      }
      assert cut[..i] == cut;
    }
  }

  lemma NamesOfNext(tokens: seq<Token>, i: nat)
    requires i < |tokens|
    ensures Names(tokens[..i + 1]) == Names(tokens[..i]) + {tokens[i].name}
  {
    var more := tokens[..i + 1];
    assert forall j :: 0 <= j < i ==> more[j] == tokens[..i][j];
    assert more[i] == tokens[i];
  }

  lemma {:induction false} DropReturnsAt(lines: seq<string>)
    ensures |Framing.DropReturns(lines)| == |lines|
    ensures forall i :: 0 <= i < |lines| ==> Framing.DropReturns(lines)[i] == Framing.DropReturn(lines[i])
  {
    if lines != [] {
      DropReturnsAt(lines[1..]);
    }
  }
}
