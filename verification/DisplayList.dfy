/** From the messages of a tab to the rows of its list: filtering, limiting, grouping. */
module DisplayList {
  import opened Text

  datatype Message = Message(kind: string, text: string, from: Option<string>, channel: Option<string>,
                             timestamp: int, raw: bool, rawCategory: Option<string>)

  datatype SearchTypes = SearchTypes(message: bool, notice: bool, join: bool, part: bool, quit: bool, system: bool)

  datatype Settings = Settings(showRaw: bool, categories: map<string, bool>,
                               hideJoin: bool, hidePart: bool, hideQuit: bool, hideListener: bool,
                               searchVisible: bool, searchTerm: string, searchTypes: SearchTypes,
                               cleanup: bool, limit: int, grouping: bool)

  datatype Row = Row(message: Message, isGrouped: bool)

  // ----- The three filters -----

  predicate RawShown(m: Message, s: Settings) {
    var category := if m.rawCategory.None? || m.rawCategory.value == "" then "debug" else m.rawCategory.value;
    m.raw ==> s.showRaw && (category in s.categories ==> s.categories[category])
  }

  predicate KindShown(m: Message, s: Settings) {
    && !(m.kind == "join" && s.hideJoin)
    && !(m.kind == "part" && s.hidePart)
    && !(m.kind == "quit" && s.hideQuit)
    && !(s.hideListener && m.raw && Includes(m.text, "Message listener registered"))
  }

  const SYSTEM_KINDS: set<string> := {"system", "error", "topic", "mode", "invite", "monitor", "raw"}

  predicate KindSearched(kind: string, types: SearchTypes) {
    || (kind == "message" && types.message)
    || (kind == "notice" && types.notice)
    || (kind == "join" && types.join)
    || (kind == "part" && types.part)
    || (kind == "quit" && types.quit)
    || (kind in SYSTEM_KINDS && types.system)
  }

  /** `lower` is the engine's `toLowerCase`. */
  predicate SearchShown(m: Message, s: Settings, lower: string -> string) {
    s.searchVisible && Trim(s.searchTerm) != "" ==>
      var term := lower(s.searchTerm);
      && KindSearched(m.kind, s.searchTypes)
      && (|| Includes(lower(m.text), term)
          || (m.from.Some? && Includes(lower(m.from.value), term))
          || (m.channel.Some? && Includes(lower(m.channel.value), term)))
  }

  predicate Survives(m: Message, s: Settings, lower: string -> string) {
    RawShown(m, s) && KindShown(m, s) && SearchShown(m, s, lower)
  }

  function Survivor(s: Settings, lower: string -> string): Message -> bool {
    m => Survives(m, s, lower)
  }

  /** The messages that pass all three filters, one after the other. */
  function Survivors(messages: seq<Message>, s: Settings, lower: string -> string): seq<Message> {
    var filtered := Filter(messages, m => RawShown(m, s));
    var visibilityFiltered := Filter(filtered, m => KindShown(m, s));
    Filter(visibilityFiltered, m => SearchShown(m, s, lower))
  }

  // ----- Limiting and grouping -----

  function Limited(survivors: seq<Message>, s: Settings): seq<Message> {
    if s.cleanup && |survivors| > s.limit then SliceFrom(survivors, -s.limit) else survivors
  }

  predicate IsAction(m: Message) {
    StandsAt(m.text, "\U{0001}ACTION", 0)
  }

  const FIVE_MINUTES := 5 * 60 * 1000

  predicate Continues(previous: Message, m: Message) {
    && m.kind == "message"
    && previous.kind == "message"
    && !IsAction(m)
    && !IsAction(previous)
    && m.from == previous.from
    && m.timestamp - previous.timestamp < FIVE_MINUTES
  }

  predicate Grouped(messages: seq<Message>, i: nat, s: Settings)
    requires i < |messages|
  {
    s.grouping && i > 0 && Continues(messages[i - 1], messages[i])
  }

  function Rows(messages: seq<Message>, s: Settings): (rows: seq<Row>)
    ensures |rows| == |messages|
    ensures forall i :: 0 <= i < |rows| ==> rows[i] == Row(messages[i], Grouped(messages, i, s))
  {
    seq(|messages|, i requires 0 <= i < |messages| => Row(messages[i], Grouped(messages, i, s)))
  }

  /** `displayMessages`. */
  function Display(messages: seq<Message>, s: Settings, lower: string -> string): seq<Row> {
    Rows(Limited(Survivors(messages, s, lower), s), s)
  }

  // ----- An order-preserving selection -----

  lemma FiltersTogether(messages: seq<Message>, s: Settings, lower: string -> string)
    ensures Survivors(messages, s, lower) == Filter(messages, Survivor(s, lower))
  {
    var raw := m => RawShown(m, s);
    var kind := m => KindShown(m, s);
    var search := m => SearchShown(m, s, lower);
    var all := Survivor(s, lower);
    FilterTwice(messages, raw, kind, m => RawShown(m, s) && KindShown(m, s));
    FilterTwice(messages, m => RawShown(m, s) && KindShown(m, s), search, all);
  }

  /** Where the surviving messages stand, in order. */
  function SurvivorPositions(messages: seq<Message>, s: Settings, lower: string -> string): seq<nat> {
    Positions(messages, Survivor(s, lower))
  }

  /** The survivors are the surviving messages, each once, in their order. */
  lemma SurvivorsAreASelection(messages: seq<Message>, s: Settings, lower: string -> string)
    ensures Survivors(messages, s, lower) == At(messages, SurvivorPositions(messages, s, lower))
    ensures forall p :: 0 <= p < |messages| ==>
      (p in SurvivorPositions(messages, s, lower) <==> Survives(messages[p], s, lower))
  {
    forall p | 0 <= p < |messages| && Survives(messages[p], s, lower)
      ensures p in SurvivorPositions(messages, s, lower)
    {
      PositionsAreAll(messages, Survivor(s, lower), p);
    }
    SurvivorsAtPositions(messages, s, lower);
  }

  lemma SurvivorsAtPositions(messages: seq<Message>, s: Settings, lower: string -> string)
    ensures Survivors(messages, s, lower) == At(messages, SurvivorPositions(messages, s, lower))
  {
    FiltersTogether(messages, s, lower);
    FilterIsSelection(messages, Survivor(s, lower));
  }

  /** How many rows are shown of `n` survivors: with a limit of at least 1, `n` or the limit if that is less. */
  function ShownCount(n: nat, s: Settings): (shown: nat)
    ensures shown <= n
  {
    if !s.cleanup || n <= s.limit || s.limit == 0 then n
    else if s.limit > 0 then s.limit
    else if n <= -s.limit then 0
    else n + s.limit
  }

  lemma LimitedIsNewest(survivors: seq<Message>, s: Settings)
    ensures |Limited(survivors, s)| == ShownCount(|survivors|, s)
    ensures Limited(survivors, s) == survivors[|survivors| - ShownCount(|survivors|, s)..]
  {
  }

  function MessagesOf(rows: seq<Row>): (messages: seq<Message>)
    ensures |messages| == |rows|
  {
    seq(|rows|, i requires 0 <= i < |rows| => rows[i].message)
  }

  lemma MessagesOfRows(messages: seq<Message>, s: Settings)
    ensures MessagesOf(Rows(messages, s)) == messages
  {
  }

  /**
   * The rows are the newest surviving messages, in order: those at the last so many of the positions
   * of survivors. With a limit of at least 1 they are exactly the last `limit` survivors.
   */
  lemma DisplayIsASelection(messages: seq<Message>, s: Settings, lower: string -> string)
    ensures var ps := SurvivorPositions(messages, s, lower);
            MessagesOf(Display(messages, s, lower)) == At(messages, ps[|ps| - ShownCount(|ps|, s)..])
  {
    var ps := SurvivorPositions(messages, s, lower);
    SurvivorsAtPositions(messages, s, lower);
    LimitedIsNewest(At(messages, ps), s);
    MessagesOfRows(Limited(At(messages, ps), s), s);
    AtLast(messages, ps, |ps| - ShownCount(|ps|, s));
  }

  /** The limit is kept exactly when it is at least 1, or 0 with nothing to show: `slice(-0)` is the whole list. */
  lemma LimitKeptExactly(messages: seq<Message>, s: Settings, lower: string -> string)
    requires s.cleanup
    ensures |Display(messages, s, lower)| <= s.limit
       <==> s.limit >= 1 || (s.limit == 0 && Survivors(messages, s, lower) == [])
  {
    LimitedIsNewest(Survivors(messages, s, lower), s);
  }

  // ----- Grouping -----

  /** `j` is the nearest row before `i` that shows its sender. */
  predicate HeadOf(rows: seq<Row>, j: nat, i: nat)
    requires i < |rows|
  {
    j < i && !rows[j].isGrouped && forall k :: j < k <= i ==> rows[k].isGrouped
  }

  predicate PlainFrom(m: Message, from: Option<string>) {
    m.kind == "message" && !IsAction(m) && m.from == from
  }

  /** A row without its sender stands under a row that shows the same sender of an ordinary message. */
  lemma {:induction false} GroupedRowsHaveAHead(messages: seq<Message>, s: Settings, i: nat)
    requires i < |messages| && Rows(messages, s)[i].isGrouped
    ensures exists j :: 0 <= j < i && HeadOf(Rows(messages, s), j, i) && PlainFrom(messages[j], messages[i].from)
  {
    var rows := Rows(messages, s);
    assert Grouped(messages, i, s);
    PlainWhenContinued(messages[i - 1], messages[i]);
    if rows[i - 1].isGrouped {
      GroupedRowsHaveAHead(messages, s, i - 1);
      var j :| 0 <= j < i - 1 && HeadOf(rows, j, i - 1) && PlainFrom(messages[j], messages[i - 1].from);
      HeadOfNext(rows, j, i - 1);
    } else {
      assert HeadOf(rows, i - 1, i);
    }
  }

  lemma PlainWhenContinued(previous: Message, m: Message)
    requires Continues(previous, m)
    ensures PlainFrom(previous, m.from) && PlainFrom(m, m.from)
  {
  }

  lemma HeadOfNext(rows: seq<Row>, j: nat, i: nat)
    requires i + 1 < |rows| && HeadOf(rows, j, i) && rows[i + 1].isGrouped
    ensures HeadOf(rows, j, i + 1)
  {
  }

  /** The same, of the rows on screen. */
  lemma ElidedSendersAreShownAbove(messages: seq<Message>, s: Settings, lower: string -> string, i: nat)
    requires i < |Display(messages, s, lower)| && Display(messages, s, lower)[i].isGrouped
    ensures var rows := Display(messages, s, lower);
            && PlainFrom(rows[i].message, rows[i].message.from)
            && exists j :: 0 <= j < i && HeadOf(rows, j, i) && PlainFrom(rows[j].message, rows[i].message.from)
  {
    var shown := Limited(Survivors(messages, s, lower), s);
    GroupedRowsHaveAHead(shown, s, i);
    PlainWhenContinued(shown[i - 1], shown[i]);
    var j :| 0 <= j < i && HeadOf(Rows(shown, s), j, i) && PlainFrom(shown[j], shown[i].from);
    assert Rows(shown, s)[j].message == shown[j];
  }
}
