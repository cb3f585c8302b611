/** When the always-encrypt marks of the tab bar are right, over runs of its events. */
module TabMarks {
  import opened Text
  import opened ChannelTabs
  import opened AsciiFolding

  // ----- Cache keys and storage keys -----

  /** What may follow "::channel" or "::query" where one network id continues another. */
  ghost predicate GoesOn(rest: string, lower: string -> string) {
    || rest == ""
    || rest == ":"
    || (|rest| >= 2 && rest[..2] == "::" && exists name: string :: rest[2..] <= lower(name))
  }

  ghost predicate ContinuesAs(n: string, m: string, kind: Kind, rest: string, lower: string -> string) {
    (kind == Channel || kind == Query) && m == n + ("::" + (KindName(kind) + rest)) && GoesOn(rest, lower)
  }

  /** The id `m` reads like `n` followed by the rest of a cache key, or by the beginning of one. */
  ghost predicate Continues(n: string, m: string, lower: string -> string) {
    exists kind: Kind, rest: string :: ContinuesAs(n, m, kind, rest, lower)
  }

  /** What follows the network id in a cache key. */
  function KeyTail(tab: Tab, lower: string -> string): string {
    "::" + (KindName(tab.kind) + ("::" + lower(tab.name)))
  }

  lemma TailColons(tab: Tab, lower: string -> string, i: nat)
    requires Relevant(tab) && 0 < i < |KindName(tab.kind)| + 2
    ensures var tail := KeyTail(tab, lower);
            |tail| >= |KindName(tab.kind)| + 4 && !(tail[i] == ':' && tail[i + 1] == ':')
  {
  }

  /** If the tail of one key ends with that of another, what is left goes on after the kind. */
  lemma TailInTail(t: Tab, u: Tab, z: string, lower: string -> string)
    requires Relevant(t) && Relevant(u) && z != "" && KeyTail(t, lower) == z + KeyTail(u, lower)
    ensures exists rest: string :: z == "::" + (KindName(t.kind) + rest) && GoesOn(rest, lower)
  {
    var tail, k := KeyTail(t, lower), |KindName(t.kind)| + 2;
    assert tail[|z|] == ':' && tail[|z| + 1] == ':';
    if |z| < k {
      TailColons(t, lower, |z|);
      assert false;
    }
    var rest := z[k..];
    assert z[..k] == tail[..k] == "::" + KindName(t.kind);
    CutAt(z, k);
    Regroup("::", KindName(t.kind), rest);
    RestGoesOn(t, u, rest, lower, z, k);
  }

  lemma RestGoesOn(t: Tab, u: Tab, rest: string, lower: string -> string, z: string, k: nat)
    requires Relevant(t) && Relevant(u) && k == |KindName(t.kind)| + 2 <= |z| && rest == z[k..]
    requires KeyTail(t, lower) == z + KeyTail(u, lower)
    ensures GoesOn(rest, lower)
  {
    var after := "::" + lower(t.name);
    assert KeyTail(t, lower)[k..] == after;
    assert (z + KeyTail(u, lower))[k..] == rest + KeyTail(u, lower);
    HeadGoesOn(after, rest, KeyTail(u, lower), t.name, lower);
  }

  lemma HeadGoesOn(after: string, rest: string, tail: string, name: string, lower: string -> string)
    requires after == "::" + lower(name) && after == rest + tail
    ensures GoesOn(rest, lower)
  {
    assert after[..|rest|] == rest;
    if |rest| >= 2 {
      assert after[2..] == lower(name) && after[2..][..|rest| - 2] == rest[2..];
      assert rest[2..] <= lower(name);
    }
  }

  lemma LongerContinues(t: Tab, u: Tab, lower: string -> string)
    requires Relevant(t) && Relevant(u) && CacheKey(t, lower) == CacheKey(u, lower)
    requires |t.networkId| <= |u.networkId|
    ensures t.networkId == u.networkId || Continues(t.networkId, u.networkId, lower)
  {
    var key, n, m := CacheKey(t, lower), t.networkId, u.networkId;
    var z := m[|n|..];
    assert key[..|n|] == n && key[..|m|] == m;
    assert m[..|n|] == n;
    CutAt(m, |n|);
    if z != "" {
      assert key[|n|..] == KeyTail(t, lower);
      assert key == m + KeyTail(u, lower);
      assert (m + KeyTail(u, lower))[|n|..] == z + KeyTail(u, lower);
      TailInTail(t, u, z, lower);
      var rest: string :| z == "::" + (KindName(t.kind) + rest) && GoesOn(rest, lower);
      assert ContinuesAs(n, m, t.kind, rest, lower);
    }
  }

  /** On one network, or on two that do not continue each other, the key tells network, kind and folded name. */
  lemma KeyTellsTheTab(t: Tab, u: Tab, lower: string -> string)
    requires Relevant(t) && Relevant(u) && CacheKey(t, lower) == CacheKey(u, lower)
    requires t.networkId == u.networkId
          || (!Continues(t.networkId, u.networkId, lower) && !Continues(u.networkId, t.networkId, lower))
    ensures t.networkId == u.networkId && t.kind == u.kind && lower(t.name) == lower(u.name)
  {
    if |t.networkId| <= |u.networkId| {
      LongerContinues(t, u, lower);
    } else {
      LongerContinues(u, t, lower);
    }
    var n := |t.networkId|;
    assert CacheKey(t, lower)[n..] == KeyTail(t, lower) && CacheKey(u, lower)[n..] == KeyTail(u, lower);
    SameTail(t, u, lower);
  }

  lemma SameTail(t: Tab, u: Tab, lower: string -> string)
    requires Relevant(t) && Relevant(u) && KeyTail(t, lower) == KeyTail(u, lower)
    ensures t.kind == u.kind && lower(t.name) == lower(u.name)
  {
    var tail := KeyTail(t, lower);
    assert tail[2] == KindName(t.kind)[0] == KindName(u.kind)[0];
    var k := |KindName(t.kind)| + 4;
    assert tail[k..] == lower(t.name) && KeyTail(u, lower)[k..] == lower(u.name);
  }

  // ----- When cache keys collide -----

  /** `lower` works character by character, and leaves colons and small letters. */
  ghost predicate CharacterWise(lower: string -> string, fold: char -> char) {
    && (forall s: string :: |lower(s)| == |s|)
    && (forall s: string, i: nat :: i < |s| ==> lower(s)[i] == fold(s[i]))
    && fold(':') == ':' && forall c: char :: 'a' <= c <= 'z' ==> fold(c) == c
  }

  ghost predicate SharedKey(t: Tab, u: Tab, n: string, m: string, lower: string -> string) {
    && Relevant(t) && Relevant(u) && t.networkId == n && u.networkId == m
    && CacheKey(t, lower) == CacheKey(u, lower)
  }

  /** Some channels or queries of the two networks have one cache key. */
  ghost predicate Collide(n: string, m: string, lower: string -> string) {
    exists t: Tab, u: Tab :: SharedKey(t, u, n, m, lower)
  }

  lemma FoldsAppendAt(lower: string -> string, fold: char -> char, a: string, b: string, i: nat)
    requires CharacterWise(lower, fold) && i < |a| + |b|
    ensures |lower(a)| == |a| && |lower(b)| == |b| && |lower(a + b)| == |a| + |b|
    ensures lower(a + b)[i] == if i < |a| then lower(a)[i] else lower(b)[i - |a|]
  {
    assert lower(a + b)[i] == fold((a + b)[i]);
    assert if i < |a| then lower(a)[i] == fold(a[i]) else lower(b)[i - |a|] == fold(b[i - |a|]);
  }

  lemma FoldsAppend(lower: string -> string, fold: char -> char, a: string, b: string)
    requires CharacterWise(lower, fold)
    ensures lower(a + b) == lower(a) + lower(b)
  {
    forall i: nat | i < |a + b| ensures lower(a + b)[i] == (lower(a) + lower(b))[i] {
      FoldsAppendAt(lower, fold, a, b, i);
    }
  }

  lemma FoldsPrefix(lower: string -> string, fold: char -> char, head: string, name: string)
    requires CharacterWise(lower, fold) && head <= lower(name)
    ensures lower(name[..|head|]) == head
  {
    forall i | 0 <= i < |head| ensures lower(name[..|head|])[i] == head[i] {
      assert lower(name[..|head|])[i] == fold(name[..|head|][i]) == fold(name[i]);
      assert lower(name)[i] == fold(name[i]);
    }
  }

  /** A name that `lower` leaves. */
  lemma KeepsName(lower: string -> string, fold: char -> char, name: string)
    requires CharacterWise(lower, fold) && forall i :: 0 <= i < |name| ==> name[i] == ':' || 'a' <= name[i] <= 'z'
    ensures lower(name) == name
  {
    forall i | 0 <= i < |name| ensures lower(name)[i] == name[i] {
      assert lower(name)[i] == fold(name[i]);
    }
  }

  lemma ChannelTail()
    ensures "::" + "channel::" == "" + "::channel::"
    ensures "::" + ":channel::" == ":" + "::channel::"
  {
  }

  /** The name of a channel on the shorter id for which its key is that of the channel "" on the longer one. */
  lemma CollidingName(rest: string, lower: string -> string, fold: char -> char) returns (name: string)
    requires CharacterWise(lower, fold) && GoesOn(rest, lower)
    ensures "::" + lower(name) == rest + "::channel::"
  {
    if rest == "" {
      name := "channel::";
      KeepsName(lower, fold, name);
      ChannelTail();
    } else if rest == ":" {
      name := ":channel::";
      KeepsName(lower, fold, name);
      ChannelTail();
    } else {
      name := LongerName(rest, lower, fold);
    }
  }

  lemma LongerName(rest: string, lower: string -> string, fold: char -> char) returns (name: string)
    requires CharacterWise(lower, fold) && |rest| >= 2 && rest[..2] == "::"
    requires exists y: string :: rest[2..] <= lower(y)
    ensures "::" + lower(name) == rest + "::channel::"
  {
    var y: string :| rest[2..] <= lower(y);
    var head, tail := y[..|rest| - 2], "::channel::";
    name := head + tail;
    FoldsAppend(lower, fold, head, tail);
    FoldsPrefix(lower, fold, rest[2..], y);
    KeepsName(lower, fold, tail);
    CutAt(rest, 2);
    Regroup("::", rest[2..], tail);
  }

  lemma ContinuedCollide(n: string, m: string, lower: string -> string, fold: char -> char)
    requires CharacterWise(lower, fold) && Continues(n, m, lower)
    ensures exists t: Tab, u: Tab :: SharedKey(t, u, n, m, lower)
  {
    var kind: Kind, rest: string :| ContinuesAs(n, m, kind, rest, lower);
    var name := CollidingName(rest, lower, fold);
    var t, u := Tab("1", kind, name, n), Tab("2", Channel, "", m);
    assert lower("") == "";
    assert KeyTail(u, lower) == "::channel::";
    calc {
      CacheKey(u, lower);
      (n + ("::" + (KindName(kind) + rest))) + "::channel::";
      { FourParts(n, "::", KindName(kind), rest, "::channel::"); }
      n + ("::" + (KindName(kind) + (rest + "::channel::")));
      CacheKey(t, lower);
    }
    assert SharedKey(t, u, n, m, lower);
  }

  lemma FourParts(a: string, b: string, c: string, d: string, e: string)
    ensures (a + (b + (c + d))) + e == a + (b + (c + (d + e)))
  {
  }

  /** Two networks have a cache key in common exactly when one id continues the other. */
  lemma KeysCollideExactly(n: string, m: string, lower: string -> string, fold: char -> char)
    requires CharacterWise(lower, fold) && n != m
    ensures Collide(n, m, lower) <==> Continues(n, m, lower) || Continues(m, n, lower)
  {
    if Continues(n, m, lower) {
      ContinuedCollide(n, m, lower, fold);
    } else if Continues(m, n, lower) {
      ContinuedCollide(m, n, lower, fold);
      var t: Tab, u: Tab :| SharedKey(t, u, m, n, lower);
      assert SharedKey(u, t, n, m, lower);
    } else if Collide(n, m, lower) {
      var t: Tab, u: Tab :| SharedKey(t, u, n, m, lower);
      KeyTellsTheTab(t, u, lower);
      assert false;
    }
  }

  lemma AsciiIsCharacterWise()
    ensures CharacterWise(AsciiLower, LowerChar)
  {
  }

  /** In ASCII a text begins a lower-cased name exactly when it holds no capital letter. */
  lemma AsciiBegins(s: string)
    ensures (exists name: string :: s <= AsciiLower(name)) <==> AsciiLower(s) == s
  {
    if name: string :| s <= AsciiLower(name) {
      forall i | 0 <= i < |s| ensures AsciiLower(s)[i] == s[i] {
        assert AsciiLower(name)[i] == LowerChar(name[i]) == s[i];
      }
    }
    if AsciiLower(s) == s {
      assert s <= AsciiLower(s);
    }
  }

  // ----- Keyed tabs -----

  /** No id among `networks` continues another. */
  ghost predicate Separate(networks: set<string>, lower: string -> string) {
    forall n, m :: n in networks && m in networks ==> !Continues(n, m, lower)
  }

  predicate Keyed(tab: Tab, networks: set<string>) {
    Relevant(tab) && tab.networkId in networks
  }

  lemma SameKeySameSetting(settings: Settings, t: Tab, u: Tab, networks: set<string>, lower: string -> string)
    requires Separate(networks, lower)
    requires Keyed(t, networks) && Keyed(u, networks) && CacheKey(t, lower) == CacheKey(u, lower)
    ensures StorageKey(t.name, t.networkId, lower) == StorageKey(u.name, u.networkId, lower)
    ensures Setting(settings, t, lower) == Setting(settings, u, lower)
  {
    KeyTellsTheTab(t, u, lower);
  }

  // ----- Putting entries into a map -----

  predicate Names(entries: seq<(string, bool)>, key: string) {
    exists j :: 0 <= j < |entries| && entries[j].0 == key
  }

  predicate Gives(entries: seq<(string, bool)>, key: string, value: bool) {
    exists j :: 0 <= j < |entries| && entries[j] == (key, value)
  }

  lemma {:induction false} PutAllAt(m: map<string, bool>, entries: seq<(string, bool)>, key: string)
    ensures var put := PutAll(m, entries);
            && (key in put <==> key in m || Names(entries, key))
            && (Names(entries, key) ==> Gives(entries, key, put[key]))
            && (!Names(entries, key) && key in m ==> put[key] == m[key])
  {
    if entries != [] {
      var front, last := entries[..|entries| - 1], entries[|entries| - 1];
      PutAllAt(m, front, key);
      assert entries[|entries| - 1] == last;
      if last.0 == key {
        assert entries[|entries| - 1] == (key, last.1);
      } else if Names(entries, key) {
        var j :| 0 <= j < |entries| && entries[j].0 == key;
        assert front[j].0 == key;
        var k :| 0 <= k < |front| && front[k] == (key, PutAll(m, front)[key]);
        assert entries[k] == front[k];
      }
    }
  }

  // ----- Right marks -----

  predicate DistinctIds(tabs: seq<Tab>) {
    forall i, j :: 0 <= i < j < |tabs| ==> tabs[i].id != tabs[j].id
  }

  predicate GoodTabs(tabs: seq<Tab>, networks: set<string>) {
    && (forall i :: 0 <= i < |tabs| && Relevant(tabs[i]) ==> tabs[i].networkId in networks)
    && DistinctIds(tabs)
  }

  /** Every cache entry is the setting of the tabs it stands for. */
  ghost predicate CacheRight(s: State, networks: set<string>, lower: string -> string) {
    forall t: Tab :: Keyed(t, networks) && CacheKey(t, lower) in s.cache ==>
      s.cache[CacheKey(t, lower)] == Setting(s.settings, t, lower)
  }

  predicate MarkRight(status: map<string, bool>, s: State, tab: Tab, lower: string -> string) {
    tab.id in status && status[tab.id] == Setting(s.settings, tab, lower)
  }

  /** Every open channel or query tab is cached, and its mark is its setting. */
  predicate Settled(s: State, lower: string -> string) {
    forall i :: 0 <= i < |s.tabs| && Relevant(s.tabs[i]) ==>
      CacheKey(s.tabs[i], lower) in s.cache && MarkRight(s.status, s, s.tabs[i], lower)
  }

  predicate GoodLookup(l: Lookup, s: State, networks: set<string>, lower: string -> string) {
    && s.status == l.known
    && DistinctIds(l.missing)
    && (forall k :: 0 <= k < |l.missing| ==>
          Keyed(l.missing[k], networks) && l.missing[k] in s.tabs && CacheKey(l.missing[k], lower) !in s.cache)
    && (forall k :: 0 <= k < |l.missing| && k in l.answers ==> l.answers[k] == Setting(s.settings, l.missing[k], lower))
    && (forall i :: 0 <= i < |s.tabs| && Relevant(s.tabs[i]) ==>
          || (CacheKey(s.tabs[i], lower) in s.cache && MarkRight(l.known, s, s.tabs[i], lower))
          || s.tabs[i] in l.missing)
  }

  ghost predicate Right(s: State, networks: set<string>, lower: string -> string) {
    && Separate(networks, lower)
    && GoodTabs(s.tabs, networks)
    && CacheRight(s, networks, lower)
    && (forall i :: 0 <= i < |s.lookups| - 1 ==> s.lookups[i].cancelled || s.lookups[i].finished)
    && (if Outstanding(s) then GoodLookup(s.lookups[|s.lookups| - 1], s, networks, lower) else Settled(s, lower))
  }

  // ----- A new tab list -----

  lemma {:induction false} KnownEntryFrom(tabs: seq<Tab>, cache: map<string, bool>, lower: string -> string, j: nat)
    requires j < |Known(tabs, cache, lower)|
    ensures exists i :: 0 <= i < |tabs| && KnownFrom(tabs[i], cache, lower, Known(tabs, cache, lower)[j])
  {
    var n := |tabs| - 1;
    var before := Known(tabs[..n], cache, lower);
    if j < |before| {
      KnownEntryFrom(tabs[..n], cache, lower, j);
      var i :| 0 <= i < n && KnownFrom(tabs[..n][i], cache, lower, before[j]);
      assert tabs[i] == tabs[..n][i];
    } else {
      assert KnownFrom(tabs[n], cache, lower, Known(tabs, cache, lower)[j]);
    }
  }

  lemma {:induction false} KnownEntryName(tabs: seq<Tab>, cache: map<string, bool>, lower: string -> string, i: nat)
    requires i < |tabs| && Relevant(tabs[i]) && CacheKey(tabs[i], lower) in cache
    ensures Names(Known(tabs, cache, lower), tabs[i].id)
  {
    var n := |tabs| - 1;
    var known := Known(tabs, cache, lower);
    if i < n {
      KnownEntryName(tabs[..n], cache, lower, i);
      var before := Known(tabs[..n], cache, lower);
      var j :| 0 <= j < |before| && before[j].0 == tabs[..n][i].id;
      assert known[j].0 == tabs[i].id;
    } else {
      assert known[|known| - 1].0 == tabs[i].id;
    }
  }

  predicate KnownFrom(tab: Tab, cache: map<string, bool>, lower: string -> string, entry: (string, bool)) {
    Relevant(tab) && CacheKey(tab, lower) in cache && entry == (tab.id, cache[CacheKey(tab, lower)])
  }

  lemma {:induction false} MissingTabs(tabs: seq<Tab>, cache: map<string, bool>, lower: string -> string)
    ensures forall tab ::
      tab in Missing(tabs, cache, lower) <==> tab in tabs && Relevant(tab) && CacheKey(tab, lower) !in cache
  {
    if tabs != [] {
      MissingTabs(tabs[..|tabs| - 1], cache, lower);
      assert tabs == tabs[..|tabs| - 1] + [tabs[|tabs| - 1]];
    }
  }

  lemma {:induction false} MissingDistinct(tabs: seq<Tab>, cache: map<string, bool>, lower: string -> string)
    requires DistinctIds(tabs)
    ensures DistinctIds(Missing(tabs, cache, lower))
  {
    if tabs != [] {
      var front := tabs[..|tabs| - 1];
      var before := Missing(front, cache, lower);
      MissingDistinct(front, cache, lower);
      MissingTabs(front, cache, lower);
      forall j | 0 <= j < |before| ensures before[j].id != tabs[|tabs| - 1].id {
        assert before[j] in before;
        var i :| 0 <= i < |front| && front[i] == before[j];
        assert tabs[i] == front[i];
      }
    }
  }

  lemma KnownMark(s: State, tabs: seq<Tab>, i: nat, networks: set<string>, lower: string -> string)
    requires GoodTabs(tabs, networks) && CacheRight(s, networks, lower)
    requires i < |tabs| && Relevant(tabs[i]) && CacheKey(tabs[i], lower) in s.cache
    ensures MarkRight(PutAll(map[], Known(tabs, s.cache, lower)), s, tabs[i], lower)
  {
    var entries := Known(tabs, s.cache, lower);
    KnownEntryName(tabs, s.cache, lower, i);
    PutAllAt(map[], entries, tabs[i].id);
    var value := PutAll(map[], entries)[tabs[i].id];
    var j :| 0 <= j < |entries| && entries[j] == (tabs[i].id, value);
    KnownEntryFrom(tabs, s.cache, lower, j);
    var k :| 0 <= k < |tabs| && KnownFrom(tabs[k], s.cache, lower, entries[j]);
    assert k == i;
  }

  lemma NewTabsKeepRight(s: State, tabs: seq<Tab>, networks: set<string>, lower: string -> string)
    requires Right(s, networks, lower) && GoodTabs(tabs, networks)
    ensures Right(AfterTabs(s, tabs, lower), networks, lower)
  {
    var t := AfterTabs(s, tabs, lower);
    var known := PutAll(map[], Known(tabs, s.cache, lower));
    MissingTabs(tabs, s.cache, lower);
    MissingDistinct(tabs, s.cache, lower);
    forall i | 0 <= i < |tabs| && Relevant(tabs[i]) && CacheKey(tabs[i], lower) in s.cache
      ensures MarkRight(known, t, tabs[i], lower)
    {
      KnownMark(s, tabs, i, networks, lower);
    }
    assert CacheRight(t, networks, lower);
    var missing := Missing(tabs, s.cache, lower);
    if missing == [] {
      forall i | 0 <= i < |tabs| && Relevant(tabs[i]) ensures CacheKey(tabs[i], lower) in s.cache {
        assert tabs[i] !in missing;
      }
    } else {
      var l := t.lookups[|t.lookups| - 1];
      assert l == Lookup(missing, known, map[], false, false);
      forall k | 0 <= k < |missing|
        ensures Keyed(missing[k], networks) && missing[k] in tabs && CacheKey(missing[k], lower) !in s.cache
      {
        assert missing[k] in missing;
      }
    }
  }

  // ----- Lookups -----

  lemma AnswerIsGood(s: State, l: Lookup, i: nat, networks: set<string>, lower: string -> string)
    requires GoodLookup(l, s, networks, lower) && i < |l.missing|
    ensures GoodLookup(l.(answers := l.answers[i := Setting(s.settings, l.missing[i], lower)]), s, networks, lower)
  {
  }

  /** A change to one lookup that leaves its flags, or takes it out of play, keeps everything right. */
  lemma LookupsKeepRight(s: State, t: State, networks: set<string>, lower: string -> string)
    requires Right(s, networks, lower)
    requires t == s.(lookups := t.lookups) && |t.lookups| == |s.lookups|
    requires forall i :: 0 <= i < |s.lookups| ==>
      && t.lookups[i].cancelled == s.lookups[i].cancelled
      && (t.lookups[i].finished == s.lookups[i].finished || s.lookups[i].cancelled)
    requires Outstanding(s) ==> GoodLookup(t.lookups[|s.lookups| - 1], s, networks, lower)
    ensures Right(t, networks, lower)
  {
    OtherLookups(s, t, networks, lower);
    if Outstanding(s) {
      LookupElsewhere(t.lookups[|s.lookups| - 1], s, t, networks, lower);
    }
  }

  lemma AnswerKeepsRight(s: State, id: nat, i: nat, networks: set<string>, lower: string -> string)
    requires Right(s, networks, lower)
    ensures Right(AfterAnswer(s, id, i, lower), networks, lower)
  {
    var t := AfterAnswer(s, id, i, lower);
    if t != s {
      if id == |s.lookups| - 1 && Outstanding(s) {
        AnswerIsGood(s, s.lookups[id], i, networks, lower);
      }
      LookupsKeepRight(s, t, networks, lower);
    }
  }

  /** Cache and marks do not depend on the list of lookups. */
  lemma OtherLookups(s: State, t: State, networks: set<string>, lower: string -> string)
    requires t == s.(lookups := t.lookups)
    ensures CacheRight(s, networks, lower) ==> CacheRight(t, networks, lower)
    ensures Settled(s, lower) ==> Settled(t, lower)
  {
  }

  lemma LookupElsewhere(l: Lookup, s: State, t: State, networks: set<string>, lower: string -> string)
    requires t == s.(lookups := t.lookups) && GoodLookup(l, s, networks, lower)
    ensures GoodLookup(l, t, networks, lower)
  {
  }

  lemma FinishedCache(s: State, l: Lookup, networks: set<string>, lower: string -> string)
    requires Separate(networks, lower)
    requires CacheRight(s, networks, lower) && GoodLookup(l, s, networks, lower) && Answered(l)
    ensures CacheRight(s.(cache := PutAll(s.cache, CacheEntries(l, lower))), networks, lower)
  {
    var entries := CacheEntries(l, lower);
    var cache := PutAll(s.cache, entries);
    forall t: Tab | Keyed(t, networks) && CacheKey(t, lower) in cache
      ensures cache[CacheKey(t, lower)] == Setting(s.settings, t, lower)
    {
      var key := CacheKey(t, lower);
      PutAllAt(s.cache, entries, key);
      if Names(entries, key) {
        var j :| 0 <= j < |entries| && entries[j] == (key, cache[key]);
        SameKeySameSetting(s.settings, t, l.missing[j], networks, lower);
      }
    }
  }

  lemma FinishedMark(s: State, l: Lookup, i: nat, networks: set<string>, lower: string -> string)
    requires GoodTabs(s.tabs, networks) && GoodLookup(l, s, networks, lower) && Answered(l)
    requires i < |s.tabs| && Relevant(s.tabs[i])
    ensures MarkRight(PutAll(l.known, StatusEntries(l)), s, s.tabs[i], lower)
  {
    var tab := s.tabs[i];
    var entries := StatusEntries(l);
    PutAllAt(l.known, entries, tab.id);
    if Names(entries, tab.id) {
      StatusEntryIsRight(s, l, i, PutAll(l.known, entries)[tab.id], networks, lower);
    } else if tab in l.missing {
      MissingIsNamed(l, tab);
    }
  }

  lemma MissingIsNamed(l: Lookup, tab: Tab)
    requires Answered(l) && tab in l.missing
    ensures Names(StatusEntries(l), tab.id)
  {
    var k :| 0 <= k < |l.missing| && l.missing[k] == tab;
    assert StatusEntries(l)[k].0 == tab.id;
  }

  lemma StatusEntryIsRight(s: State, l: Lookup, i: nat, value: bool, networks: set<string>, lower: string -> string)
    requires GoodTabs(s.tabs, networks) && GoodLookup(l, s, networks, lower) && Answered(l)
    requires i < |s.tabs| && Gives(StatusEntries(l), s.tabs[i].id, value)
    ensures value == Setting(s.settings, s.tabs[i], lower)
  {
    var j :| 0 <= j < |l.missing| && StatusEntries(l)[j] == (s.tabs[i].id, value);
    var m :| 0 <= m < |s.tabs| && s.tabs[m] == l.missing[j];
    assert m == i;
  }

  lemma FinishedKey(s: State, l: Lookup, i: nat, networks: set<string>, lower: string -> string)
    requires GoodLookup(l, s, networks, lower) && Answered(l)
    requires i < |s.tabs| && Relevant(s.tabs[i])
    ensures CacheKey(s.tabs[i], lower) in PutAll(s.cache, CacheEntries(l, lower))
  {
    var tab := s.tabs[i];
    var entries := CacheEntries(l, lower);
    PutAllAt(s.cache, entries, CacheKey(tab, lower));
    if tab in l.missing {
      var k :| 0 <= k < |l.missing| && l.missing[k] == tab;
      assert entries[k].0 == CacheKey(tab, lower);
    }
  }

  lemma LiveFinish(s: State, l: Lookup, t: State, networks: set<string>, lower: string -> string)
    requires Separate(networks, lower)
    requires GoodTabs(s.tabs, networks) && CacheRight(s, networks, lower)
    requires GoodLookup(l, s, networks, lower) && Answered(l)
    requires t == s.(cache := PutAll(s.cache, CacheEntries(l, lower)), status := PutAll(l.known, StatusEntries(l)),
                     lookups := t.lookups)
    ensures CacheRight(t, networks, lower) && Settled(t, lower)
  {
    FinishedCache(s, l, networks, lower);
    OtherLookups(s.(cache := t.cache), s.(cache := t.cache, lookups := t.lookups), networks, lower);
    forall i | 0 <= i < |s.tabs| && Relevant(s.tabs[i])
      ensures CacheKey(s.tabs[i], lower) in t.cache && MarkRight(t.status, t, s.tabs[i], lower)
    {
      FinishedMark(s, l, i, networks, lower);
      FinishedKey(s, l, i, networks, lower);
    }
  }

  lemma FinishKeepsRight(s: State, id: nat, networks: set<string>, lower: string -> string)
    requires Right(s, networks, lower)
    ensures Right(AfterFinish(s, id, lower), networks, lower)
  {
    var t := AfterFinish(s, id, lower);
    var last := |s.lookups| - 1;
    if id < |s.lookups| && !s.lookups[id].finished && Answered(s.lookups[id]) {
      if s.lookups[id].cancelled {
        LookupsKeepRight(s, t, networks, lower);
      } else {
        LiveFinish(s, s.lookups[last], t, networks, lower);
      }
    }
  }

  // ----- Change notices -----

  /** What is relied on of `toLowerCase`: names that fold alike are alike for the settings service. */
  ghost predicate FoldsNetworks(lower: string -> string) {
    forall a: string, b: string :: lower(a) == lower(b) ==> lower(Canonical(a)) == lower(Canonical(b))
  }

  /** `tab` reads the setting that is stored for `channel` on `network`. */
  predicate Reads(tab: Tab, channel: string, network: string, lower: string -> string) {
    StorageKey(tab.name, tab.networkId, lower) == StorageKey(channel, network, lower)
  }

  /** An open tab that the notice concerns has the cache entry `key`. */
  predicate Reached(tabs: seq<Tab>, key: string, channel: string, network: string, lower: string -> string) {
    exists i :: 0 <= i < |tabs| && Concerns(tabs[i], channel, network, lower) && CacheKey(tabs[i], lower) == key
  }

  /** Every cached tab that reads the changed setting is reached by the notice, or had that value already. */
  ghost predicate Covered(s: State, channel: string, network: string, value: bool, networks: set<string>,
                          lower: string -> string)
  {
    forall t: Tab :: Keyed(t, networks) && CacheKey(t, lower) in s.cache ==>
      CoveredAt(s, channel, network, value, lower, t)
  }

  lemma ConcernedReads(tab: Tab, channel: string, network: string, lower: string -> string)
    requires FoldsNetworks(lower) && Concerns(tab, channel, network, lower)
    ensures Reads(tab, channel, network, lower)
  {
  }

  predicate NoticeFrom(tab: Tab, channel: string, network: string, value: bool, byId: bool, lower: string -> string,
                       entry: (string, bool)) {
    Concerns(tab, channel, network, lower) && entry == (if byId then tab.id else CacheKey(tab, lower), value)
  }

  lemma {:induction false} NoticeEntriesFrom(tabs: seq<Tab>, channel: string, network: string, value: bool, byId: bool,
                                             lower: string -> string, j: nat)
    requires j < |NoticeEntries(tabs, channel, network, value, byId, lower)|
    ensures var entries := NoticeEntries(tabs, channel, network, value, byId, lower);
            exists i :: 0 <= i < |tabs| && NoticeFrom(tabs[i], channel, network, value, byId, lower, entries[j])
  {
    var n := |tabs| - 1;
    var before := NoticeEntries(tabs[..n], channel, network, value, byId, lower);
    if j < |before| {
      NoticeEntriesFrom(tabs[..n], channel, network, value, byId, lower, j);
      var i :| 0 <= i < n && NoticeFrom(tabs[..n][i], channel, network, value, byId, lower, before[j]);
      assert tabs[i] == tabs[..n][i];
    } else {
      assert NoticeFrom(tabs[n], channel, network, value, byId, lower,
                        NoticeEntries(tabs, channel, network, value, byId, lower)[j]);
    }
  }

  lemma {:induction false} NoticeEntriesName(tabs: seq<Tab>, channel: string, network: string, value: bool, byId: bool,
                                             lower: string -> string, i: nat)
    requires i < |tabs| && Concerns(tabs[i], channel, network, lower)
    ensures Names(NoticeEntries(tabs, channel, network, value, byId, lower),
                  if byId then tabs[i].id else CacheKey(tabs[i], lower))
  {
    var n := |tabs| - 1;
    var entries := NoticeEntries(tabs, channel, network, value, byId, lower);
    if i < n {
      NoticeEntriesName(tabs[..n], channel, network, value, byId, lower, i);
      var before := NoticeEntries(tabs[..n], channel, network, value, byId, lower);
      var key := if byId then tabs[i].id else CacheKey(tabs[i], lower);
      assert tabs[..n][i] == tabs[i];
      var j :| 0 <= j < |before| && before[j].0 == key;
      assert entries[j].0 == key;
    } else {
      assert entries[|entries| - 1].0 == if byId then tabs[i].id else CacheKey(tabs[i], lower);
    }
  }

  /** The cache entry `key` after the notice: the new value where the notice reaches it, else the old one. */
  lemma CacheAfterNotice(s: State, channel: string, network: string, value: bool, lower: string -> string, key: string)
    ensures var t := AfterChange(s, channel, network, value, lower);
            if Reached(s.tabs, key, channel, network, lower) then key in t.cache && t.cache[key] == value
            else (key in t.cache <==> key in s.cache) && (key in s.cache ==> t.cache[key] == s.cache[key])
  {
    var entries := NoticeEntries(s.tabs, channel, network, value, false, lower);
    PutAllAt(s.cache, entries, key);
    if Reached(s.tabs, key, channel, network, lower) {
      var i :| 0 <= i < |s.tabs| && Concerns(s.tabs[i], channel, network, lower) && CacheKey(s.tabs[i], lower) == key;
      NoticeEntriesName(s.tabs, channel, network, value, false, lower, i);
    }
    if Names(entries, key) {
      var j :| 0 <= j < |entries| && entries[j] == (key, PutAll(s.cache, entries)[key]);
      NoticeEntriesFrom(s.tabs, channel, network, value, false, lower, j);
      var i :| 0 <= i < |s.tabs| && NoticeFrom(s.tabs[i], channel, network, value, false, lower, entries[j]);
      assert CacheKey(s.tabs[i], lower) == key;
    }
  }

  /** The mark of an open tab after the notice. */
  lemma MarkAfterNotice(s: State, channel: string, network: string, value: bool, networks: set<string>,
                        lower: string -> string, i: nat)
    requires GoodTabs(s.tabs, networks) && i < |s.tabs| && s.tabs[i].id in s.status
    ensures var t := AfterChange(s, channel, network, value, lower);
            var id := s.tabs[i].id;
            && id in t.status
            && t.status[id] == if Concerns(s.tabs[i], channel, network, lower) then value else s.status[id]
  {
    var entries := NoticeEntries(s.tabs, channel, network, value, true, lower);
    var id := s.tabs[i].id;
    PutAllAt(s.status, entries, id);
    if Concerns(s.tabs[i], channel, network, lower) {
      NoticeEntriesName(s.tabs, channel, network, value, true, lower, i);
    }
    if Names(entries, id) {
      var j :| 0 <= j < |entries| && entries[j] == (id, PutAll(s.status, entries)[id]);
      NoticeEntriesFrom(s.tabs, channel, network, value, true, lower, j);
      var k :| 0 <= k < |s.tabs| && NoticeFrom(s.tabs[k], channel, network, value, true, lower, entries[j]);
      assert k == i;
    }
  }

  lemma SettingAfterChange(s: State, channel: string, network: string, value: bool, lower: string -> string, tab: Tab)
    ensures Setting(AfterChange(s, channel, network, value, lower).settings, tab, lower)
         == if Reads(tab, channel, network, lower) then value else Setting(s.settings, tab, lower)
  {
  }

  /** A reached key belongs to tabs that read the changed setting. */
  lemma ReachedReads(s: State, channel: string, network: string, networks: set<string>, lower: string -> string, t: Tab)
    requires FoldsNetworks(lower) && Separate(networks, lower) && GoodTabs(s.tabs, networks)
    requires Keyed(t, networks) && Reached(s.tabs, CacheKey(t, lower), channel, network, lower)
    ensures Reads(t, channel, network, lower)
  {
    var i :| 0 <= i < |s.tabs| && Concerns(s.tabs[i], channel, network, lower)
             && CacheKey(s.tabs[i], lower) == CacheKey(t, lower);
    ConcernedReads(s.tabs[i], channel, network, lower);
    SameKeySameSetting(s.settings, t, s.tabs[i], networks, lower);
  }

  /** One cached tab's part of `Covered`. */
  predicate CoveredAt(s: State, channel: string, network: string, value: bool, lower: string -> string, t: Tab) {
    Reads(t, channel, network, lower) ==>
      Reached(s.tabs, CacheKey(t, lower), channel, network, lower) || Setting(s.settings, t, lower) == value
  }

  lemma CacheEntryAfterNotice(s: State, channel: string, network: string, value: bool, networks: set<string>,
                              lower: string -> string, t: Tab)
    requires FoldsNetworks(lower) && Separate(networks, lower)
    requires GoodTabs(s.tabs, networks) && CacheRight(s, networks, lower) && Keyed(t, networks)
    ensures var after := AfterChange(s, channel, network, value, lower);
            var key := CacheKey(t, lower);
            && (key in s.cache ==> key in after.cache)
            && (key in s.cache ==>
                  (after.cache[key] == Setting(after.settings, t, lower)
                   <==> CoveredAt(s, channel, network, value, lower, t)))
            && (key in after.cache && key !in s.cache ==> after.cache[key] == Setting(after.settings, t, lower))
  {
    CacheAfterNotice(s, channel, network, value, lower, CacheKey(t, lower));
    SettingAfterChange(s, channel, network, value, lower, t);
    if Reached(s.tabs, CacheKey(t, lower), channel, network, lower) {
      ReachedReads(s, channel, network, networks, lower, t);
    }
  }

  lemma CoveredKeepsCache(s: State, channel: string, network: string, value: bool, networks: set<string>,
                          lower: string -> string)
    requires FoldsNetworks(lower) && Separate(networks, lower)
    requires GoodTabs(s.tabs, networks) && CacheRight(s, networks, lower)
    requires Covered(s, channel, network, value, networks, lower)
    ensures CacheRight(AfterChange(s, channel, network, value, lower), networks, lower)
  {
    var after := AfterChange(s, channel, network, value, lower);
    forall t: Tab | Keyed(t, networks) && CacheKey(t, lower) in after.cache
      ensures after.cache[CacheKey(t, lower)] == Setting(after.settings, t, lower)
    {
      CacheEntryAfterNotice(s, channel, network, value, networks, lower, t);
    }
  }

  /** A notice leaves the cache right exactly when it covers the change. */
  lemma NoticeKeepsCacheExactly(s: State, channel: string, network: string, value: bool, networks: set<string>,
                                lower: string -> string)
    requires FoldsNetworks(lower) && Separate(networks, lower)
    requires GoodTabs(s.tabs, networks) && CacheRight(s, networks, lower)
    ensures CacheRight(AfterChange(s, channel, network, value, lower), networks, lower)
       <==> Covered(s, channel, network, value, networks, lower)
  {
    var after := AfterChange(s, channel, network, value, lower);
    if Covered(s, channel, network, value, networks, lower) {
      CoveredKeepsCache(s, channel, network, value, networks, lower);
    } else {
      var t: Tab :| Keyed(t, networks) && CacheKey(t, lower) in s.cache
                    && !CoveredAt(s, channel, network, value, lower, t);
      CacheEntryAfterNotice(s, channel, network, value, networks, lower, t);
    }
  }

  lemma OpenMarkAfterNotice(s: State, channel: string, network: string, value: bool, networks: set<string>,
                            lower: string -> string, i: nat)
    requires FoldsNetworks(lower) && Right(s, networks, lower) && !Outstanding(s)
    requires Covered(s, channel, network, value, networks, lower)
    requires i < |s.tabs| && Relevant(s.tabs[i])
    ensures var after := AfterChange(s, channel, network, value, lower);
            CacheKey(s.tabs[i], lower) in after.cache && MarkRight(after.status, after, s.tabs[i], lower)
  {
    var tab := s.tabs[i];
    CacheAfterNotice(s, channel, network, value, lower, CacheKey(tab, lower));
    MarkAfterNotice(s, channel, network, value, networks, lower, i);
    SettingAfterChange(s, channel, network, value, lower, tab);
    assert Keyed(tab, networks) && CoveredAt(s, channel, network, value, lower, tab);
    if Concerns(tab, channel, network, lower) {
      ConcernedReads(tab, channel, network, lower);
    } else if Reads(tab, channel, network, lower) && Reached(s.tabs, CacheKey(tab, lower), channel, network, lower) {
      var k :| 0 <= k < |s.tabs| && Concerns(s.tabs[k], channel, network, lower)
               && CacheKey(s.tabs[k], lower) == CacheKey(tab, lower);
      KeyTellsTheTab(tab, s.tabs[k], lower);
    }
  }

  lemma NoticeKeepsRight(s: State, channel: string, network: string, value: bool, networks: set<string>,
                         lower: string -> string)
    requires FoldsNetworks(lower) && Right(s, networks, lower) && !Outstanding(s)
    requires Covered(s, channel, network, value, networks, lower)
    ensures Right(AfterChange(s, channel, network, value, lower), networks, lower)
  {
    CoveredKeepsCache(s, channel, network, value, networks, lower);
    var after := AfterChange(s, channel, network, value, lower);
    forall i | 0 <= i < |s.tabs| && Relevant(s.tabs[i])
      ensures CacheKey(s.tabs[i], lower) in after.cache && MarkRight(after.status, after, s.tabs[i], lower)
    {
      OpenMarkAfterNotice(s, channel, network, value, networks, lower, i);
    }
    assert Settled(after, lower);
  }

  /** With no lookup outstanding a notice leaves cache and marks right exactly when it covers the change. */
  lemma NoticeKeepsRightExactly(s: State, channel: string, network: string, value: bool, networks: set<string>,
                                lower: string -> string)
    requires FoldsNetworks(lower) && Right(s, networks, lower) && !Outstanding(s)
    ensures Right(AfterChange(s, channel, network, value, lower), networks, lower)
       <==> Covered(s, channel, network, value, networks, lower)
  {
    NoticeKeepsCacheExactly(s, channel, network, value, networks, lower);
    if Covered(s, channel, network, value, networks, lower) {
      NoticeKeepsRight(s, channel, network, value, networks, lower);
    }
  }

  // ----- Every run -----

  /** Tab lists are good, and a setting changes only with no lookup outstanding and covered by the notice. */
  ghost predicate Orderly(s: State, event: Event, networks: set<string>, lower: string -> string) {
    match event
    case SetTabs(tabs) => GoodTabs(tabs, networks)
    case Change(channel, network, value) => !Outstanding(s) && Covered(s, channel, network, value, networks, lower)
    case _ => true
  }

  ghost predicate OrderlyRun(settings: Settings, events: seq<Event>, networks: set<string>, lower: string -> string) {
    forall k :: 0 <= k < |events| ==> Orderly(Run(settings, events[..k], lower), events[k], networks, lower)
  }

  lemma OrderlyStep(s: State, event: Event, networks: set<string>, lower: string -> string)
    requires FoldsNetworks(lower) && Right(s, networks, lower) && Orderly(s, event, networks, lower)
    ensures Right(After(s, event, lower), networks, lower)
  {
    match event
    case SetTabs(tabs) => NewTabsKeepRight(s, tabs, networks, lower);
    case Answer(id, i) => AnswerKeepsRight(s, id, i, networks, lower);
    case Finish(id) => FinishKeepsRight(s, id, networks, lower);
    case Change(channel, network, value) => NoticeKeepsRight(s, channel, network, value, networks, lower);
  }

  lemma OrderlyFront(settings: Settings, events: seq<Event>, networks: set<string>, lower: string -> string)
    requires events != [] && OrderlyRun(settings, events, networks, lower)
    ensures var n := |events| - 1;
            && OrderlyRun(settings, events[..n], networks, lower)
            && Orderly(Run(settings, events[..n], lower), events[n], networks, lower)
  {
    var n := |events| - 1;
    forall k | 0 <= k < n ensures Orderly(Run(settings, events[..n][..k], lower), events[..n][k], networks, lower) {
      assert events[..n][..k] == events[..k];
    }
  }

  lemma {:induction false} OrderlyRunsAreRight(settings: Settings, events: seq<Event>, networks: set<string>,
                                               lower: string -> string)
    requires FoldsNetworks(lower) && Separate(networks, lower) && OrderlyRun(settings, events, networks, lower)
    ensures Right(Run(settings, events, lower), networks, lower)
  {
    if events != [] {
      var n := |events| - 1;
      OrderlyFront(settings, events, networks, lower);
      OrderlyRunsAreRight(settings, events[..n], networks, lower);
      OrderlyStep(Run(settings, events[..n], lower), events[n], networks, lower);
    }
  }

  /** The mark of `tab`, its cache entry and its setting are one. */
  predicate InStep(s: State, tab: Tab, lower: string -> string) {
    && tab.id in s.status && CacheKey(tab, lower) in s.cache
    && s.status[tab.id] == s.cache[CacheKey(tab, lower)] == Setting(s.settings, tab, lower)
  }

  lemma RightIsInStep(s: State, networks: set<string>, lower: string -> string)
    requires Right(s, networks, lower) && !Outstanding(s)
    ensures forall i :: 0 <= i < |s.tabs| && Relevant(s.tabs[i]) ==> InStep(s, s.tabs[i], lower)
  {
    forall i | 0 <= i < |s.tabs| && Relevant(s.tabs[i]) ensures InStep(s, s.tabs[i], lower) {
      assert Keyed(s.tabs[i], networks);
    }
  }

  /**
   * Any orderly mix of tab lists, answers, finished and cancelled lookups and changes ends, whenever
   * no lookup is outstanding, with mark, cache entry and setting equal for every open channel or query.
   */
  lemma MarksAreRight(settings: Settings, events: seq<Event>, networks: set<string>, lower: string -> string)
    requires FoldsNetworks(lower) && Separate(networks, lower) && OrderlyRun(settings, events, networks, lower)
    ensures var s := Run(settings, events, lower);
            !Outstanding(s) ==> forall i :: 0 <= i < |s.tabs| && Relevant(s.tabs[i]) ==> InStep(s, s.tabs[i], lower)
  {
    var s := Run(settings, events, lower);
    OrderlyRunsAreRight(settings, events, networks, lower);
    if !Outstanding(s) {
      RightIsInStep(s, networks, lower);
    }
  }

  // ----- Where the notice misses a tab -----

  /**
   * The settings service drops a port suffix from the network name, the notice's comparison does not.
   * A tab that reads the changed setting under another spelling of the network keeps its old mark:
   * its mark is right afterwards exactly when the value did not change.
   */
  lemma OtherSpellingKeepsOldMark(s: State, channel: string, network: string, value: bool, networks: set<string>,
                                  lower: string -> string, i: nat)
    requires Right(s, networks, lower) && !Outstanding(s)
    requires i < |s.tabs| && Relevant(s.tabs[i])
    requires Reads(s.tabs[i], channel, network, lower) && !Concerns(s.tabs[i], channel, network, lower)
    ensures var after := AfterChange(s, channel, network, value, lower);
            MarkRight(after.status, after, s.tabs[i], lower) <==> Setting(s.settings, s.tabs[i], lower) == value
  {
    MarkAfterNotice(s, channel, network, value, networks, lower, i);
    SettingAfterChange(s, channel, network, value, lower, s.tabs[i]);
  }

  /** There are such tabs: "n (2)" reads the setting of "n". */
  lemma OtherSpellingExists()
    ensures var tab := Tab("1", Channel, "c", "n (2)");
            Reads(tab, "c", "n", AsciiLower) && !Concerns(tab, "c", "n", AsciiLower)
  {
    var network := "n (2)";
    NothingToTrim(network);
    NothingToTrim("n");
    assert DigitsStart(network, 4) == 3 by {
      assert DigitsStart(network, 3) == 3;
    }
    assert network[..1] == "n";
    assert Canonical(network) == "n" && Canonical("n") == "n";
  }

  // ----- A notice during a lookup -----

  /** Further answers for the lookup `id`, in any order. */
  function AfterAnswers(s: State, id: nat, order: seq<nat>, lower: string -> string): State {
    if order == [] then s
    else AfterAnswer(AfterAnswers(s, id, order[..|order| - 1], lower), id, order[|order| - 1], lower)
  }

  /** From `l` to `m` answers have come in, with the settings as they are now. */
  predicate AnsweredMore(l: Lookup, m: Lookup, settings: Settings, lower: string -> string) {
    && m == l.(answers := m.answers)
    && (forall k :: 0 <= k < |l.missing| && k in l.answers ==> k in m.answers && m.answers[k] == l.answers[k])
    && (forall k :: 0 <= k < |l.missing| && k in m.answers && k !in l.answers ==>
          m.answers[k] == Setting(settings, l.missing[k], lower))
  }

  lemma {:induction false} AnswersComeIn(s: State, id: nat, order: seq<nat>, lower: string -> string)
    requires id < |s.lookups|
    ensures var t := AfterAnswers(s, id, order, lower);
            && |t.lookups| == |s.lookups| && t == s.(lookups := t.lookups)
            && AnsweredMore(s.lookups[id], t.lookups[id], s.settings, lower)
  {
    if order != [] {
      AnswersComeIn(s, id, order[..|order| - 1], lower);
    }
  }

  /** The state once a setting has changed, the remaining answers have come in and the lookup has finished. */
  function AfterOverlap(s: State, channel: string, network: string, value: bool, order: seq<nat>,
                        lower: string -> string): State
    requires Outstanding(s)
  {
    var id := |s.lookups| - 1;
    AfterFinish(AfterAnswers(AfterChange(s, channel, network, value, lower), id, order, lower), id, lower)
  }

  /** `tab` is looked up, and was still without its answer. */
  predicate Unanswered(l: Lookup, tab: Tab) {
    exists k :: 0 <= k < |l.missing| && l.missing[k] == tab && k !in l.answers
  }

  lemma LookedUpMark(s: State, l: Lookup, m: Lookup, i: nat, k: nat, networks: set<string>, lower: string -> string)
    requires GoodLookup(l, s, networks, lower) && Answered(m) && m == l.(answers := m.answers)
    requires i < |s.tabs| && k < |l.missing| && l.missing[k] == s.tabs[i]
    ensures s.tabs[i].id in PutAll(m.known, StatusEntries(m))
    ensures PutAll(m.known, StatusEntries(m))[s.tabs[i].id] == m.answers[k]
  {
    var id, entries := s.tabs[i].id, StatusEntries(m);
    PutAllAt(m.known, entries, id);
    assert entries[k].0 == id;
    var j :| 0 <= j < |entries| && entries[j] == (id, PutAll(m.known, entries)[id]);
    assert j == k;
  }

  lemma CachedMark(s: State, l: Lookup, m: Lookup, i: nat, networks: set<string>, lower: string -> string)
    requires GoodTabs(s.tabs, networks) && GoodLookup(l, s, networks, lower)
    requires Answered(m) && m == l.(answers := m.answers)
    requires i < |s.tabs| && Relevant(s.tabs[i]) && s.tabs[i] !in l.missing
    ensures s.tabs[i].id in PutAll(m.known, StatusEntries(m))
    ensures PutAll(m.known, StatusEntries(m))[s.tabs[i].id] == Setting(s.settings, s.tabs[i], lower)
  {
    var id, entries := s.tabs[i].id, StatusEntries(m);
    PutAllAt(m.known, entries, id);
    forall j | 0 <= j < |entries| ensures entries[j].0 != id {
      var h :| 0 <= h < |s.tabs| && s.tabs[h] == l.missing[j];
      assert l.missing[j] in l.missing && h != i;
    }
  }

  lemma UnansweredAt(l: Lookup, k: nat)
    requires DistinctIds(l.missing) && k < |l.missing|
    ensures Unanswered(l, l.missing[k]) <==> k !in l.answers
  {
  }

  /** With other settings in the end, a mark is right if its setting is as it was, or was asked for late. */
  lemma OverlapMark(s: State, l: Lookup, m: Lookup, settings: Settings, i: nat, networks: set<string>,
                    lower: string -> string)
    requires GoodTabs(s.tabs, networks) && GoodLookup(l, s, networks, lower)
    requires Answered(m) && AnsweredMore(l, m, settings, lower)
    requires i < |s.tabs| && Relevant(s.tabs[i])
    ensures var id, status, now := s.tabs[i].id, PutAll(m.known, StatusEntries(m)), Setting(settings, s.tabs[i], lower);
            && id in status
            && (status[id] == now <==> (Setting(s.settings, s.tabs[i], lower) == now || Unanswered(l, s.tabs[i])))
  {
    var tab := s.tabs[i];
    if tab in l.missing {
      var k :| 0 <= k < |l.missing| && l.missing[k] == tab;
      LookedUpMark(s, l, m, i, k, networks, lower);
      UnansweredAt(l, k);
      assert k in m.answers;
    } else {
      CachedMark(s, l, m, i, networks, lower);
      assert !Unanswered(l, tab);
    }
  }

  /** All answers for the lookup `id` are in. */
  predicate AllIn(s: State, id: nat) {
    id < |s.lookups| && Answered(s.lookups[id])
  }

  lemma LastFinished(s: State, lower: string -> string)
    requires Outstanding(s) && Answered(s.lookups[|s.lookups| - 1])
    ensures var after, m := AfterFinish(s, |s.lookups| - 1, lower), s.lookups[|s.lookups| - 1];
            && !Outstanding(after) && after.settings == s.settings
            && after.cache == PutAll(s.cache, CacheEntries(m, lower))
            && after.status == PutAll(m.known, StatusEntries(m))
  {
  }

  /** How a lookup ends once all is answered: with the answers in `m`, on top of what was known before. */
  lemma AnsweredEnds(changed: State, order: seq<nat>, lower: string -> string) returns (m: Lookup)
    requires Outstanding(changed)
    requires AllIn(AfterAnswers(changed, |changed.lookups| - 1, order, lower), |changed.lookups| - 1)
    ensures var id := |changed.lookups| - 1;
            var after := AfterFinish(AfterAnswers(changed, id, order, lower), id, lower);
            && Answered(m) && AnsweredMore(changed.lookups[id], m, changed.settings, lower)
            && !Outstanding(after) && after.settings == changed.settings
            && after.cache == PutAll(changed.cache, CacheEntries(m, lower))
            && after.status == PutAll(m.known, StatusEntries(m))
  {
    var id := |changed.lookups| - 1;
    AnswersComeIn(changed, id, order, lower);
    var answered := AfterAnswers(changed, id, order, lower);
    m := answered.lookups[id];
    LastFinished(answered, lower);
  }

  /**
   * A notice while a lookup is outstanding: once the lookup has finished, the mark of an open tab is
   * right exactly when the notice was not about its setting, or changed nothing, or the tab was being
   * looked up and still without its answer. Else the finished lookup shows what it knew before.
   */
  lemma NoticeDuringLookupExactly(s: State, channel: string, network: string, value: bool, order: seq<nat>, i: nat,
                                  networks: set<string>, lower: string -> string)
    requires Right(s, networks, lower) && Outstanding(s) && i < |s.tabs| && Relevant(s.tabs[i])
    requires AllIn(AfterAnswers(AfterChange(s, channel, network, value, lower), |s.lookups| - 1, order, lower),
                   |s.lookups| - 1)
    ensures var after, tab := AfterOverlap(s, channel, network, value, order, lower), s.tabs[i];
            && !Outstanding(after)
            && (MarkRight(after.status, after, tab, lower)
                <==> (!Reads(tab, channel, network, lower) || Setting(s.settings, tab, lower) == value
                      || Unanswered(s.lookups[|s.lookups| - 1], tab)))
  {
    var m := AnsweredEnds(AfterChange(s, channel, network, value, lower), order, lower);
    var settings := AfterChange(s, channel, network, value, lower).settings;
    OverlapMark(s, s.lookups[|s.lookups| - 1], m, settings, i, networks, lower);
    SettingAfterChange(s, channel, network, value, lower, s.tabs[i]);
  }

  lemma KeyNotLookedUp(s: State, l: Lookup, m: Lookup, i: nat, networks: set<string>, lower: string -> string)
    requires GoodLookup(l, s, networks, lower) && Answered(m) && m == l.(answers := m.answers)
    requires i < |s.tabs| && Relevant(s.tabs[i]) && s.tabs[i] !in l.missing
    ensures !Names(CacheEntries(m, lower), CacheKey(s.tabs[i], lower))
  {
    assert CacheKey(s.tabs[i], lower) in s.cache;
  }

  /** The cache entry of a tab that was not being looked up keeps the new value all the same. */
  lemma CacheOutlivesMark(s: State, channel: string, network: string, value: bool, order: seq<nat>, i: nat,
                          networks: set<string>, lower: string -> string)
    requires FoldsNetworks(lower) && Right(s, networks, lower) && Outstanding(s) && i < |s.tabs|
    requires Concerns(s.tabs[i], channel, network, lower) && s.tabs[i] !in s.lookups[|s.lookups| - 1].missing
    requires AllIn(AfterAnswers(AfterChange(s, channel, network, value, lower), |s.lookups| - 1, order, lower),
                   |s.lookups| - 1)
    ensures var after, key := AfterOverlap(s, channel, network, value, order, lower), CacheKey(s.tabs[i], lower);
            key in after.cache && after.cache[key] == value == Setting(after.settings, s.tabs[i], lower)
  {
    var key := CacheKey(s.tabs[i], lower);
    var m := AnsweredEnds(AfterChange(s, channel, network, value, lower), order, lower);
    KeyNotLookedUp(s, s.lookups[|s.lookups| - 1], m, i, networks, lower);
    ConcernedReads(s.tabs[i], channel, network, lower);
    SettingAfterChange(s, channel, network, value, lower, s.tabs[i]);
    CacheAfterNotice(s, channel, network, value, lower, key);
    PutAllAt(AfterChange(s, channel, network, value, lower).cache, CacheEntries(m, lower), key);
  }

  // ----- Such states are reached -----

  lemma AsciiFolds()
    ensures FoldsNetworks(AsciiLower)
  {
    forall a: string, b: string | AsciiLower(a) == AsciiLower(b)
      ensures AsciiLower(Canonical(a)) == AsciiLower(Canonical(b))
    {
      AsciiLowerFoldsNetworks(a, b);
    }
  }

  /** One network alone is separate from itself. */
  lemma OneNetwork(network: string, lower: string -> string)
    ensures Separate({network}, lower)
  {
  }

  lemma OneTabLookedUp(tab: Tab)
    requires Relevant(tab)
    ensures AfterTabs(Start(map[]), [tab], AsciiLower)
         == State(map[], [tab], map[], map[], [Lookup([tab], map[], map[], false, false)])
  {
    assert [tab][..0] == [] && [] + [tab] == [tab];
    assert Known([], map[], AsciiLower) == [] && Missing([], map[], AsciiLower) == [];
    assert Known([tab], map[], AsciiLower) == [] && Missing([tab], map[], AsciiLower) == [tab];
  }

  lemma OneTabAnswered(tab: Tab, looked: State)
    requires looked == State(map[], [tab], map[], map[], [Lookup([tab], map[], map[], false, false)])
    ensures AfterAnswer(looked, 0, 0, AsciiLower)
         == looked.(lookups := [Lookup([tab], map[], map[0 := false], false, false)])
  {
    assert Setting(map[], tab, AsciiLower) == false;
  }

  /** The run in which one tab is opened and the storage has answered for it. */
  lemma OpenedAndAnswered(tab: Tab)
    requires Relevant(tab)
    ensures var s := Run(map[], [SetTabs([tab]), Answer(0, 0)], AsciiLower);
            && s == State(map[], [tab], map[], map[], [Lookup([tab], map[], map[0 := false], false, false)])
            && Right(s, {tab.networkId}, AsciiLower)
  {
    var events := [SetTabs([tab]), Answer(0, 0)];
    assert events[..1] == [SetTabs([tab])] && events[..1][..0] == [] && events[..0] == [];
    OneTabLookedUp(tab);
    assert Run(map[], [], AsciiLower) == Start(map[]);
    OneTabAnswered(tab, AfterTabs(Start(map[]), [tab], AsciiLower));
    AsciiFolds();
    OneNetwork(tab.networkId, AsciiLower);
    assert Orderly(Run(map[], events[..0], AsciiLower), events[0], {tab.networkId}, AsciiLower);
    assert Orderly(Run(map[], events[..1], AsciiLower), events[1], {tab.networkId}, AsciiLower);
    OrderlyRunsAreRight(map[], events, {tab.networkId}, AsciiLower);
  }

  lemma LostOn(s: State, tab: Tab)
    requires Relevant(tab) && Right(s, {tab.networkId}, AsciiLower)
    requires s == State(map[], [tab], map[], map[], [Lookup([tab], map[], map[0 := false], false, false)])
    ensures Outstanding(s)
    ensures AllIn(AfterAnswers(AfterChange(s, tab.name, tab.networkId, true, AsciiLower), 0, [], AsciiLower), 0)
    ensures var after := AfterOverlap(s, tab.name, tab.networkId, true, [], AsciiLower);
            !MarkRight(after.status, after, tab, AsciiLower)
  {
    var changed := AfterChange(s, tab.name, tab.networkId, true, AsciiLower);
    assert AfterAnswers(changed, 0, [], AsciiLower) == changed && changed.lookups == s.lookups;
    assert !Unanswered(s.lookups[0], tab) && !Setting(s.settings, tab, AsciiLower);
    NoticeDuringLookupExactly(s, tab.name, tab.networkId, true, [], 0, {tab.networkId}, AsciiLower);
  }

  /**
   * An overlap that is reached: the setting of the only tab changes after the storage has answered. All
   * that `NoticeDuringLookupExactly` asks for holds, and the mark is wrong in the end.
   */
  lemma LostNotice(tab: Tab)
    requires Relevant(tab)
    ensures var s := Run(map[], [SetTabs([tab]), Answer(0, 0)], AsciiLower);
            && s.tabs == [tab] && Right(s, {tab.networkId}, AsciiLower) && Outstanding(s)
            && AllIn(AfterAnswers(AfterChange(s, tab.name, tab.networkId, true, AsciiLower), 0, [], AsciiLower), 0)
            && var after := AfterOverlap(s, tab.name, tab.networkId, true, [], AsciiLower);
               !MarkRight(after.status, after, tab, AsciiLower)
  {
    OpenedAndAnswered(tab);
    LostOn(Run(map[], [SetTabs([tab]), Answer(0, 0)], AsciiLower), tab);
  }
}
