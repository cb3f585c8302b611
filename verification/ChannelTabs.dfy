/**
 * The always-encrypt marks of the tab bar: a cache filled by asynchronous lookups, which a change of
 * the tab list cancels, and updated by change notices of the settings service.
 */
module ChannelTabs {
  import opened Text

  datatype Kind = Channel | Query | Server | Notice

  datatype Tab = Tab(id: string, kind: Kind, name: string, networkId: string)

  predicate Relevant(tab: Tab) {
    tab.kind == Channel || tab.kind == Query
  }

  function KindName(kind: Kind): string {
    match kind
    case Channel => "channel"
    case Query => "query"
    case Server => "server"
    case Notice => "notice"
  }

  /** `getEncryptCacheKey`; `lower` is the engine's `toLowerCase`. */
  function CacheKey(tab: Tab, lower: string -> string): string {
    tab.networkId + ("::" + (KindName(tab.kind) + ("::" + lower(tab.name))))
  }

  // ----- The settings service -----

  predicate IsDigit(c: char) {
    '0' <= c <= '9'
  }

  /** Where the run of digits that ends before `end` starts. */
  function DigitsStart(s: string, end: nat): (start: nat)
    requires end <= |s|
    ensures start <= end
  {
    if end > 0 && IsDigit(s[end - 1]) then DigitsStart(s, end - 1) else end
  }

  /** `s.replace(/ \(\d+\)$/, '')`. */
  function StripPort(s: string): string {
    if s == "" || s[|s| - 1] != ')' then s
    else
      var end := |s| - 1;
      var start := DigitsStart(s, end);
      if 2 <= start < end && s[start - 1] == '(' && s[start - 2] == ' ' then s[..start - 2] else s
  }

  /** `canonicalizeNetwork`. */
  function Canonical(network: string): string {
    StripPort(Trim(network))
  }

  /** `getStorageKey`, without its constant prefix. */
  function StorageKey(channel: string, network: string, lower: string -> string): string {
    lower(Canonical(network)) + ":" + lower(channel)
  }

  type Settings = map<string, bool>

  /** `getAlwaysEncrypt`, when the storage can be read. */
  function Setting(settings: Settings, tab: Tab, lower: string -> string): bool {
    var key := StorageKey(tab.name, tab.networkId, lower);
    if key in settings then settings[key] else false
  }

  // ----- What the tab bar remembers -----

  /** A lookup under way: the tabs to look up, the marks known when it started, the answers so far. */
  datatype Lookup = Lookup(missing: seq<Tab>, known: map<string, bool>, answers: map<nat, bool>,
                           cancelled: bool, finished: bool)

  datatype State = State(settings: Settings, tabs: seq<Tab>, cache: map<string, bool>, status: map<string, bool>,
                         lookups: seq<Lookup>)

  function Start(settings: Settings): State {
    State(settings, [], map[], map[], [])
  }

  /** The lookup that is not cancelled and has not finished is the last one started. */
  predicate Outstanding(s: State) {
    s.lookups != [] && !s.lookups[|s.lookups| - 1].cancelled && !s.lookups[|s.lookups| - 1].finished
  }

  function PutAll(m: map<string, bool>, entries: seq<(string, bool)>): map<string, bool> {
    if entries == [] then m
    else
      var last := entries[|entries| - 1];
      PutAll(m, entries[..|entries| - 1])[last.0 := last.1]
  }

  // ----- A new tab list -----

  function Known(tabs: seq<Tab>, cache: map<string, bool>, lower: string -> string): seq<(string, bool)> {
    if tabs == [] then []
    else
      var tab := tabs[|tabs| - 1];
      var before := Known(tabs[..|tabs| - 1], cache, lower);
      if Relevant(tab) && CacheKey(tab, lower) in cache then before + [(tab.id, cache[CacheKey(tab, lower)])]
      else before
  }

  function Missing(tabs: seq<Tab>, cache: map<string, bool>, lower: string -> string): seq<Tab> {
    if tabs == [] then []
    else
      var tab := tabs[|tabs| - 1];
      var before := Missing(tabs[..|tabs| - 1], cache, lower);
      if Relevant(tab) && CacheKey(tab, lower) !in cache then before + [tab] else before
  }

  function Cancelled(lookups: seq<Lookup>): seq<Lookup> {
    if lookups == [] then []
    else lookups[|lookups| - 1 := lookups[|lookups| - 1].(cancelled := true)]
  }

  function AfterTabs(s: State, tabs: seq<Tab>, lower: string -> string): State {
    var known := PutAll(map[], Known(tabs, s.cache, lower));
    var missing := Missing(tabs, s.cache, lower);
    var lookups := Cancelled(s.lookups);
    s.(tabs := tabs, status := known,
       lookups := if missing == [] then lookups else lookups + [Lookup(missing, known, map[], false, false)])
  }

  // ----- A lookup -----

  /** The storage answers for one tab of a lookup. */
  function AfterAnswer(s: State, id: nat, i: nat, lower: string -> string): State {
    if id >= |s.lookups| || i >= |s.lookups[id].missing| || i in s.lookups[id].answers then s
    else
      var l := s.lookups[id];
      s.(lookups := s.lookups[id := l.(answers := l.answers[i := Setting(s.settings, l.missing[i], lower)])])
  }

  predicate Answered(l: Lookup) {
    forall i :: 0 <= i < |l.missing| ==> i in l.answers
  }

  function CacheEntries(l: Lookup, lower: string -> string): (entries: seq<(string, bool)>)
    requires Answered(l)
    ensures |entries| == |l.missing|
    ensures forall i :: 0 <= i < |entries| ==> entries[i] == (CacheKey(l.missing[i], lower), l.answers[i])
  {
    seq(|l.missing|, i requires 0 <= i < |l.missing| => (CacheKey(l.missing[i], lower), l.answers[i]))
  }

  function StatusEntries(l: Lookup): (entries: seq<(string, bool)>)
    requires Answered(l)
    ensures |entries| == |l.missing|
    ensures forall i :: 0 <= i < |entries| ==> entries[i] == (l.missing[i].id, l.answers[i])
  {
    seq(|l.missing|, i requires 0 <= i < |l.missing| => (l.missing[i].id, l.answers[i]))
  }

  /** All answers are in; a cancelled lookup drops them. */
  function AfterFinish(s: State, id: nat, lower: string -> string): State {
    if id >= |s.lookups| || s.lookups[id].finished || !Answered(s.lookups[id]) then s
    else
      var l := s.lookups[id];
      var done := s.(lookups := s.lookups[id := l.(finished := true)]);
      if l.cancelled then done
      else done.(cache := PutAll(s.cache, CacheEntries(l, lower)), status := PutAll(l.known, StatusEntries(l)))
  }

  // ----- A change notice -----

  predicate Concerns(tab: Tab, channel: string, network: string, lower: string -> string) {
    Relevant(tab) && lower(tab.name) == lower(channel) && lower(tab.networkId) == lower(network)
  }

  function NoticeEntries(tabs: seq<Tab>, channel: string, network: string, value: bool, byId: bool,
                         lower: string -> string): seq<(string, bool)> {
    if tabs == [] then []
    else
      var tab := tabs[|tabs| - 1];
      var before := NoticeEntries(tabs[..|tabs| - 1], channel, network, value, byId, lower);
      if Concerns(tab, channel, network, lower)
      then before + [(if byId then tab.id else CacheKey(tab, lower), value)]
      else before
  }

  /** A setting is stored and the listener told. */
  function AfterChange(s: State, channel: string, network: string, value: bool, lower: string -> string): State {
    s.(settings := s.settings[StorageKey(channel, network, lower) := value],
       cache := PutAll(s.cache, NoticeEntries(s.tabs, channel, network, value, false, lower)),
       status := PutAll(s.status, NoticeEntries(s.tabs, channel, network, value, true, lower)))
  }

  datatype Event =
    | SetTabs(tabs: seq<Tab>)
    | Answer(id: nat, i: nat)
    | Finish(id: nat)
    | Change(channel: string, network: string, value: bool)

  function After(s: State, event: Event, lower: string -> string): State {
    match event
    case SetTabs(tabs) => AfterTabs(s, tabs, lower)
    case Answer(id, i) => AfterAnswer(s, id, i, lower)
    case Finish(id) => AfterFinish(s, id, lower)
    case Change(channel, network, value) => AfterChange(s, channel, network, value, lower)
  }

  function Run(settings: Settings, events: seq<Event>, lower: string -> string): State {
    if events == [] then Start(settings)
    else After(Run(settings, events[..|events| - 1], lower), events[|events| - 1], lower)
  }

  // ----- The effects, updating in place -----

  class TabBar {
    const lower: string -> string
    var settings: Settings
    var tabs: seq<Tab>
    var encryptStatusCache: map<string, bool>
    var alwaysEncryptStatus: map<string, bool>
    var lookups: seq<Lookup>

    function Now(): State
      reads this
    {
      State(settings, tabs, encryptStatusCache, alwaysEncryptStatus, lookups)
    }

    constructor (settings: Settings, lower: string -> string)
      ensures this.lower == lower && Now() == Start(settings)
    {
      this.lower := lower;
      this.settings, tabs, encryptStatusCache, alwaysEncryptStatus, lookups := settings, [], map[], map[], [];
    }

    method TabsChanged(newTabs: seq<Tab>)
      modifies this
      ensures Now() == AfterTabs(old(Now()), newTabs, lower)
    {
      lookups := Cancelled(lookups);
      tabs := newTabs;
      var known, missing := SplitTabs(newTabs);
      alwaysEncryptStatus := known;
      if |missing| == 0 {
        return;
      }
      lookups := lookups + [Lookup(missing, known, map[], false, false)];
    }

    method SplitTabs(newTabs: seq<Tab>) returns (known: map<string, bool>, missing: seq<Tab>)
      ensures known == PutAll(map[], Known(newTabs, encryptStatusCache, lower))
      ensures missing == Missing(newTabs, encryptStatusCache, lower)
    {
      known, missing := map[], [];
      var i := 0;
      while i < |newTabs|
        invariant 0 <= i <= |newTabs|
        invariant known == PutAll(map[], Known(newTabs[..i], encryptStatusCache, lower))
        invariant missing == Missing(newTabs[..i], encryptStatusCache, lower)
      {
        var tab := newTabs[i];
        assert newTabs[..i + 1][..i] == newTabs[..i] && newTabs[..i + 1][i] == tab;
        if Relevant(tab) {
          var cacheKey := CacheKey(tab, lower);
          if cacheKey in encryptStatusCache {
            PutLast(map[], Known(newTabs[..i], encryptStatusCache, lower), (tab.id, encryptStatusCache[cacheKey]));
            known := known[tab.id := encryptStatusCache[cacheKey]];
          } else {
            missing := missing + [tab];
          }
        }
        i := i + 1;
      }
      assert newTabs[..i] == newTabs;
    }

    method LookupFinished(id: nat)
      requires id < |lookups| && !lookups[id].finished && Answered(lookups[id])
      modifies this
      ensures Now() == AfterFinish(old(Now()), id, lower)
    {
      var l := lookups[id];
      lookups := lookups[id := l.(finished := true)];
      if l.cancelled {
        return;
      }
      var cacheEntries, statusEntries := CacheEntries(l, lower), StatusEntries(l);
      var nextStatus := l.known;
      var i := 0;
      while i < |l.missing|
        invariant 0 <= i <= |l.missing|
        invariant encryptStatusCache == PutAll(old(encryptStatusCache), cacheEntries[..i])
        invariant nextStatus == PutAll(l.known, statusEntries[..i])
        invariant settings == old(settings) && tabs == old(tabs) && lookups == old(lookups)[id := l.(finished := true)]
      {
        PutNext(old(encryptStatusCache), cacheEntries, i);
        PutNext(l.known, statusEntries, i);
        encryptStatusCache := encryptStatusCache[CacheKey(l.missing[i], lower) := l.answers[i]];
        nextStatus := nextStatus[l.missing[i].id := l.answers[i]];
        i := i + 1;
      }
      assert cacheEntries[..i] == cacheEntries && statusEntries[..i] == statusEntries;
      alwaysEncryptStatus := nextStatus;
    }

    method AlwaysEncryptChanged(channel: string, network: string, value: bool)
      modifies this
      ensures Now() == AfterChange(old(Now()), channel, network, value, lower)
    {
      settings := settings[StorageKey(channel, network, lower) := value];
      encryptStatusCache, alwaysEncryptStatus := Updated(channel, network, value);
    }

    method Updated(channel: string, network: string, value: bool)
      returns (nextCache: map<string, bool>, next: map<string, bool>)
      ensures nextCache == PutAll(encryptStatusCache, NoticeEntries(tabs, channel, network, value, false, lower))
      ensures next == PutAll(alwaysEncryptStatus, NoticeEntries(tabs, channel, network, value, true, lower))
    {
      nextCache, next := encryptStatusCache, alwaysEncryptStatus;
      var i := 0;
      while i < |tabs|
        invariant 0 <= i <= |tabs|
        invariant nextCache
               == PutAll(encryptStatusCache, NoticeEntries(tabs[..i], channel, network, value, false, lower))
        invariant next == PutAll(alwaysEncryptStatus, NoticeEntries(tabs[..i], channel, network, value, true, lower))
      {
        var tab := tabs[i];
        assert tabs[..i + 1][..i] == tabs[..i] && tabs[..i + 1][i] == tab;
        if Concerns(tab, channel, network, lower) {
          PutLast(encryptStatusCache, NoticeEntries(tabs[..i], channel, network, value, false, lower),
                  (CacheKey(tab, lower), value));
          PutLast(alwaysEncryptStatus, NoticeEntries(tabs[..i], channel, network, value, true, lower), (tab.id, value));
          nextCache := nextCache[CacheKey(tab, lower) := value];
          next := next[tab.id := value];
        }
        i := i + 1;
      }
      assert tabs[..i] == tabs;
    }
  }

  lemma PutLast(m: map<string, bool>, entries: seq<(string, bool)>, e: (string, bool))
    ensures PutAll(m, entries + [e]) == PutAll(m, entries)[e.0 := e.1]
  {
    assert (entries + [e])[..|entries|] == entries;
  }

  lemma PutNext(m: map<string, bool>, entries: seq<(string, bool)>, i: nat)
    requires i < |entries|
    ensures PutAll(m, entries[..i + 1]) == PutAll(m, entries[..i])[entries[i].0 := entries[i].1]
  {
    assert entries[..i + 1] == entries[..i] + [entries[i]];
    PutLast(m, entries[..i], entries[i]);
  }
}
