/** What becomes of the nicks picked in the composer: where on submit each turn of the replacement loop lands. */
module NickReplacements {
  import opened Text
  import opened MessageInput

  // ----- Picking and submitting -----

  /**
   * The replacements stand as recorded, one after the other, in a text of which `rest` is what follows
   * its first `from` characters.
   */
  predicate InOrder(rest: string, from: nat, rs: seq<Replacement>)
    decreases |rs|
  {
    rs == [] ||
    (rs[0].display != "" && StandsAt(rest, rs[0].display, rs[0].start - from)
     && InOrder(Beyond(rest, from, rs[0]), rs[0].start + |rs[0].display|, rs[1..]))
  }

  /** What follows `r`. */
  function Beyond(rest: string, from: nat, r: Replacement): string
    requires StandsAt(rest, r.display, r.start - from)
  {
    rest[r.start - from + |r.display|..]
  }

  /** What comes before `r`, and `r` in its styled form. */
  function Filled(rest: string, from: nat, r: Replacement): string
    requires StandsAt(rest, r.display, r.start - from)
  {
    rest[..r.start - from] + r.styled
  }

  /** `rest` with every replacement made in the place it was recorded for. */
  function Substituted(rest: string, from: nat, rs: seq<Replacement>): string
    requires InOrder(rest, from, rs)
    decreases |rs|
  {
    if rs == [] then rest
    else Filled(rest, from, rs[0]) + Substituted(Beyond(rest, from, rs[0]), rs[0].start + |rs[0].display|, rs[1..])
  }

  /** The turn of `r` replaces at `place`: its offset says so, or holds something else and the first place is that. */
  predicate LandsAt(next: string, r: Replacement, place: int) {
    if InPlace(next, r) then r.start == place else Find(next, r.display) == place
  }

  /** Every turn lands at the recorded place, moved on by what the earlier turns have made the text grow. */
  predicate EachLands(next: string, length: nat, rs: seq<Replacement>)
    decreases |rs|
  {
    rs == [] ||
    (LandsAt(next, rs[0], rs[0].start + |next| - length) && EachLands(ApplyOne(next, rs[0]), length, rs[1..]))
  }

  lemma StandsFurther(done: string, rest: string, t: string, at: nat)
    requires StandsAt(rest, t, at)
    ensures StandsAt(done + rest, t, |done| + at)
  {
    assert (done + rest)[|done| + at..|done| + at + |t|] == rest[at..at + |t|];
  }

  lemma NothingBefore(s: string)
    ensures "" + s == s
  {
  }

  lemma DropAppended(done: string, rest: string, at: nat)
    requires at <= |rest|
    ensures (done + rest)[|done| + at..] == rest[at..]
  {
  }

  /** Between turns the text is `done + rest`. A turn that lands in its place leaves what follows. */
  lemma LandedTurn(next: string, done: string, rest: string, from: nat, r: Replacement) returns (before: string)
    requires next == done + rest && StandsAt(rest, r.display, r.start - from)
    requires LandsAt(next, r, |done| + r.start - from)
    ensures before == done + Filled(rest, from, r)
    ensures ApplyOne(next, r) == before + Beyond(rest, from, r)
  {
    var at := r.start - from;
    before := done + Filled(rest, from, r);
    StandsFurther(done, rest, r.display, at);
    assert next[..|done| + at] == done + rest[..at];
    DropAppended(done, rest, at + |r.display|);
    Regroup(done, rest[..at], r.styled);
  }

  /** The first turn, and what is left for the others. */
  lemma FirstTurn(next: string, rest: string, from: nat, length: nat, rs: seq<Replacement>)
    returns (after: string, filled: string, more: string, end: nat)
    requires rs != [] && InOrder(rest, from, rs) && length == from + |rest|
    ensures after == ApplyOne(next, rs[0]) && ApplyAll(next, rs) == ApplyAll(after, rs[1..])
    ensures filled == Filled(rest, from, rs[0]) && more == Beyond(rest, from, rs[0])
    ensures length == end + |more| && end == rs[0].start + |rs[0].display| && InOrder(more, end, rs[1..])
    ensures Substituted(rest, from, rs) == filled + Substituted(more, end, rs[1..])
    ensures EachLands(next, length, rs)
       <==> LandsAt(next, rs[0], rs[0].start + |next| - length) && EachLands(after, length, rs[1..])
  {
    after, filled, more := ApplyOne(next, rs[0]), Filled(rest, from, rs[0]), Beyond(rest, from, rs[0]);
    end := rs[0].start + |rs[0].display|;
  }

  /** If every turn lands in its place, all replacements are made as if at once. */
  lemma {:induction false} LandingSubstitutes(next: string, done: string, rest: string, from: nat, length: nat,
                                              rs: seq<Replacement>)
    requires next == done + rest && length == from + |rest| && InOrder(rest, from, rs)
    requires EachLands(next, length, rs)
    ensures ApplyAll(next, rs) == done + Substituted(rest, from, rs)
    decreases |rs|
  {
    if rs != [] {
      var after, filled, more, end := FirstTurn(next, rest, from, length, rs);
      var before := LandedTurn(next, done, rest, from, rs[0]);
      LandingSubstitutes(after, before, more, end, length, rs[1..]);
      Regroup(done, filled, Substituted(more, end, rs[1..]));
    }
  }

  // ----- Turns that land elsewhere -----

  /** The styled form is no shorter, and closes with another character than the text it stands for. */
  predicate Closes(r: Replacement) {
    && r.display != "" && |r.display| <= |r.styled|
    && r.styled[|r.styled| - 1] != r.display[|r.display| - 1]
  }

  predicate EndsWith(text: string, end: string) {
    |end| <= |text| && text[|text| - |end|..] == end
  }

  lemma EndsNoMore(whole: string, end: string, filled: string, rest: string)
    requires end == filled + rest && !EndsWith(whole, rest)
    ensures !EndsWith(whole, end)
  {
    assert end[|filled|..] == rest;
    if |end| <= |whole| {
      assert whole[|whole| - |rest|..] == whole[|whole| - |end|..][|filled|..];
    }
  }

  lemma EndsOtherwise(whole: string, before: string, end: string, filled: string, rest: string)
    requires whole == before + rest && end == filled + rest
    requires before != "" && filled != "" && before[|before| - 1] != filled[|filled| - 1]
    ensures !EndsWith(whole, end)
  {
    if |whole| >= |end| {
      assert whole[|whole| - |end|..][|filled| - 1] == whole[|before| - 1] == before[|before| - 1];
      assert end[|filled| - 1] == filled[|filled| - 1];
    }
  }

  /** A turn that lands elsewhere lands too early... */
  lemma MissedEarly(next: string, r: Replacement, place: int) returns (at: nat)
    requires StandsAt(next, r.display, place) && r.start <= place && !LandsAt(next, r, place)
    ensures at < place && StandsAt(next, r.display, at)
    ensures ApplyOne(next, r) == next[..at] + r.styled + next[at + |r.display|..]
  {
    at := if InPlace(next, r) then r.start else Find(next, r.display);
  }

  /** ...and leaves the end of its own place as it was. */
  lemma MissedTurn(next: string, done: string, rest: string, from: nat, r: Replacement) returns (before: string)
    requires next == done + rest && from <= |done|
    requires StandsAt(rest, r.display, r.start - from) && Closes(r)
    requires !LandsAt(next, r, |done| + r.start - from)
    ensures ApplyOne(next, r) == before + Beyond(rest, from, r)
    ensures r.start + |r.display| <= |before| && before[|before| - 1] == r.display[|r.display| - 1]
  {
    var place := |done| + r.start - from;
    StandsFurther(done, rest, r.display, r.start - from);
    var at := MissedEarly(next, r, place);
    DropAppended(done, rest, r.start - from + |r.display|);
    before := MissedPlace(next, r, at, place, Beyond(rest, from, r));
  }

  lemma AnyTurn(next: string, done: string, rest: string, from: nat, r: Replacement) returns (before: string)
    requires next == done + rest && from <= |done|
    requires StandsAt(rest, r.display, r.start - from) && Closes(r)
    ensures ApplyOne(next, r) == before + Beyond(rest, from, r)
    ensures r.start + |r.display| <= |before|
    ensures LandsAt(next, r, |done| + r.start - from) || before[|before| - 1] == r.display[|r.display| - 1]
  {
    if LandsAt(next, r, |done| + r.start - from) {
      before := LandedTurn(next, done, rest, from, r);
    } else {
      before := MissedTurn(next, done, rest, from, r);
    }
  }

  lemma MissedPlace(next: string, r: Replacement, at: nat, place: nat, beyond: string) returns (before: string)
    requires StandsAt(next, r.display, at) && StandsAt(next, r.display, place) && at < place && Closes(r)
    requires beyond == next[place + |r.display|..]
    ensures next[..at] + r.styled + next[at + |r.display|..] == before + beyond
    ensures |before| == place + |r.styled| && before[|before| - 1] == r.display[|r.display| - 1]
  {
    var d := |r.display|;
    var middle := next[at + d..place + d];
    before := next[..at] + r.styled + middle;
    CutAt(next[at + d..], place - at);
    Regroup(next[..at] + r.styled, middle, beyond);
    assert middle[|middle| - 1] == next[place + d - 1] == next[place..place + d][d - 1];
  }

  /** Where styled forms close, a turn in a wrong place is never made good by the later ones. */
  lemma {:induction false} MissedIsNotMended(next: string, done: string, rest: string, from: nat, length: nat,
                                             rs: seq<Replacement>)
    requires next == done + rest && length == from + |rest| && from <= |done| && InOrder(rest, from, rs)
    requires forall i :: 0 <= i < |rs| ==> Closes(rs[i])
    requires !EachLands(next, length, rs)
    ensures !EndsWith(ApplyAll(next, rs), Substituted(rest, from, rs))
    decreases |rs|
  {
    var after, filled, more, end := FirstTurn(next, rest, from, length, rs);
    var before := AnyTurn(next, done, rest, from, rs[0]);
    if EachLands(after, length, rs[1..]) {
      LandingSubstitutes(after, before, more, end, length, rs[1..]);
      MissedEnd(ApplyAll(next, rs), before, rest, from, rs[0], Substituted(more, end, rs[1..]));
    } else {
      MissedIsNotMended(after, before, more, end, length, rs[1..]);
      EndsNoMore(ApplyAll(next, rs), Substituted(rest, from, rs), filled, Substituted(more, end, rs[1..]));
    }
  }

  lemma MissedEnd(whole: string, before: string, rest: string, from: nat, r: Replacement, tail: string)
    requires StandsAt(rest, r.display, r.start - from) && Closes(r)
    requires whole == before + tail && before != "" && before[|before| - 1] == r.display[|r.display| - 1]
    ensures !EndsWith(whole, Filled(rest, from, r) + tail)
  {
    var filled := Filled(rest, from, r);
    assert filled[|filled| - 1] == r.styled[|r.styled| - 1];
    EndsOtherwise(whole, before, filled + tail, filled, tail);
  }

  /** Replacements in order are each made in their own place if every turn lands there... */
  lemma LandedIsSubstituted(text: string, rs: seq<Replacement>)
    requires InOrder(text, 0, rs) && EachLands(text, |text|, rs)
    ensures ApplyAll(text, rs) == Substituted(text, 0, rs)
  {
    NothingBefore(text);
    LandingSubstitutes(text, "", text, 0, |text|, rs);
    NothingBefore(Substituted(text, 0, rs));
  }

  /** ...and, where the styled forms close with a character of their own, only then. */
  lemma SubstitutedExactly(text: string, rs: seq<Replacement>)
    requires InOrder(text, 0, rs)
    requires forall i :: 0 <= i < |rs| ==> Closes(rs[i])
    ensures ApplyAll(text, rs) == Substituted(text, 0, rs) <==> EachLands(text, |text|, rs)
  {
    if EachLands(text, |text|, rs) {
      LandedIsSubstituted(text, rs);
    } else {
      NothingBefore(text);
      MissedIsNotMended(text, "", text, 0, |text|, rs);
    }
  }

  // ----- Picks and further typing keep replacements in order -----

  lemma StandsInMore(rest: string, more: string, from: nat, r: Replacement)
    requires StandsAt(rest, r.display, r.start - from)
    ensures StandsAt(rest + more, r.display, r.start - from)
    ensures Beyond(rest + more, from, r) == Beyond(rest, from, r) + more
  {
    var at, end := r.start - from, r.start - from + |r.display|;
    assert (rest + more)[at..end] == rest[at..end];
  }

  lemma {:induction false} InOrderAppend(rest: string, from: nat, rs: seq<Replacement>, more: string)
    requires InOrder(rest, from, rs)
    ensures InOrder(rest + more, from, rs)
    decreases |rs|
  {
    if rs != [] {
      StandsInMore(rest, more, from, rs[0]);
      InOrderAppend(Beyond(rest, from, rs[0]), rs[0].start + |rs[0].display|, rs[1..], more);
    }
  }

  lemma StandsBeyond(text: string, from: nat, first: Replacement, t: string, at: int, end: int)
    requires StandsAt(text, first.display, first.start - from) && end == first.start + |first.display| <= at
    requires StandsAt(text, t, at - from)
    ensures StandsAt(Beyond(text, from, first), t, at - end)
  {
    assert text[end - from..][at - end..at - end + |t|] == text[at - from..at - from + |t|];
  }

  lemma StandsInLonger(rest: string, text: string, from: nat, r: Replacement)
    requires rest <= text && StandsAt(rest, r.display, r.start - from)
    ensures StandsAt(text, r.display, r.start - from) && Beyond(rest, from, r) <= Beyond(text, from, r)
  {
    assert text == rest + text[|rest|..];
    StandsInMore(rest, text[|rest|..], from, r);
  }

  lemma FirstBeyond(text: string, rest: string, from: nat, first: Replacement, r: Replacement)
    returns (beyond: string, less: string, end: nat)
    requires rest <= text && StandsAt(rest, first.display, first.start - from)
    requires from + |rest| <= r.start && StandsAt(text, r.display, r.start - from)
    ensures StandsAt(text, first.display, first.start - from)
    ensures end == first.start + |first.display| && end + |less| <= r.start
    ensures beyond == Beyond(text, from, first) && less == Beyond(rest, from, first) && less <= beyond
    ensures StandsAt(beyond, r.display, r.start - end)
  {
    StandsInLonger(rest, text, from, first);
    end := first.start + |first.display|;
    StandsBeyond(text, from, first, r.display, r.start, end);
    beyond, less := Beyond(text, from, first), Beyond(rest, from, first);
  }

  /** A replacement that stands behind all others. */
  lemma {:induction false} InOrderSnoc(text: string, rest: string, from: nat, rs: seq<Replacement>, r: Replacement,
                                       all: seq<Replacement>)
    requires rest <= text && InOrder(rest, from, rs) && all == rs + [r]
    requires r.display != "" && from + |rest| <= r.start && StandsAt(text, r.display, r.start - from)
    ensures InOrder(text, from, all)
    decreases |rs|
  {
    if rs == [] {
      assert all[0] == r && all[1..] == [];
    } else {
      var beyond, less, end := FirstBeyond(text, rest, from, rs[0], r);
      assert all[0] == rs[0] && all[1..] == rs[1..] + [r];
      InOrderSnoc(beyond, less, end, rs[1..], r, all[1..]);
    }
  }

  lemma {:induction false} InOrderStands(text: string, done: string, rest: string, from: nat, rs: seq<Replacement>)
    requires text == done + rest && |done| == from && InOrder(rest, from, rs)
    ensures forall i :: 0 <= i < |rs| ==> rs[i].display != "" && InPlace(text, rs[i])
    decreases |rs|
  {
    if rs != [] {
      var at := rs[0].start - from + |rs[0].display|;
      StandsFurther(done, rest, rs[0].display, rs[0].start - from);
      CutAt(rest, at);
      Regroup(done, rest[..at], rest[at..]);
      InOrderStands(text, done + rest[..at], Beyond(rest, from, rs[0]), from + at, rs[1..]);
    }
  }

  /** What `lastIndexOf(' ')` cuts off as the text before the last token. */
  function BeforeToken(message: string): string {
    message[..LastSpace(message) + 1]
  }

  /** Everything picked so far stands in order before the last token, as recorded. */
  predicate PicksStand(message: string, pending: seq<Replacement>) {
    InOrder(BeforeToken(message), 0, pending) && forall i :: 0 <= i < |pending| ==> Measured(pending[i])
  }

  lemma StandingPicks(message: string, pending: seq<Replacement>)
    requires PicksStand(message, pending)
    ensures InOrder(message, 0, pending)
  {
    var before := BeforeToken(message);
    CutAt(message, |before|);
    InOrderAppend(before, 0, pending, message[|before|..]);
  }

  lemma StandInPlace(before: string, pending: seq<Replacement>)
    requires InOrder(before, 0, pending)
    ensures forall i :: 0 <= i < |pending| ==> pending[i].display != "" && InPlace(before, pending[i])
  {
    NothingBefore(before);
    InOrderStands(before, "", before, 0, pending);
  }

  /** What stands before the replaced token stays where it is. */
  lemma {:induction false} NothingShifted(rest: string, from: nat, pending: seq<Replacement>, cut: nat, to: nat,
                                          delta: int)
    requires InOrder(rest, from, pending) && cut == from + |rest| && cut <= to
    requires forall i :: 0 <= i < |pending| ==> Measured(pending[i])
    ensures Shifted(pending, cut, to, delta) == pending
    decreases |pending|
  {
    if pending != [] {
      var r := pending[0];
      assert Measured(r) && r.end <= cut && r.start < to;
      NothingShifted(Beyond(rest, from, r), r.start + |r.display|, pending[1..], cut, to, delta);
    }
  }

  lemma SpaceAtEnd(before: string, token: string)
    requires token != "" && token[|token| - 1] == ' '
    ensures BeforeToken(before + token) == before + token
  {
    assert (before + token)[|before + token| - 1] == ' ';
  }

  /** A pick adds its replacement at the end. */
  lemma PickAppends(pending: seq<Replacement>, p: Picked)
    requires InOrder(p.before, 0, pending) && forall i :: 0 <= i < |pending| ==> Measured(pending[i])
    ensures WithPick(pending, p) == if p.becomes == p.shown then pending else pending + [PickedReplacement(p)]
  {
    NothingShiftedBefore(p.before, pending, TokenEnd(p), Growth(p));
  }

  lemma NothingShiftedBefore(before: string, pending: seq<Replacement>, to: nat, delta: int)
    requires InOrder(before, 0, pending) && |before| <= to
    requires forall i :: 0 <= i < |pending| ==> Measured(pending[i])
    ensures Shifted(pending, |before|, to, delta) == pending
  {
    NothingShifted(before, 0, pending, |before|, to, delta);
  }

  lemma PickedInOrder(pending: seq<Replacement>, p: Picked)
    requires InOrder(p.before, 0, pending) && forall i :: 0 <= i < |pending| ==> Measured(pending[i])
    requires p.shown != "" && p.shown <= p.token
    ensures InOrder(p.before + p.token, 0, WithPick(pending, p))
  {
    PickAppends(pending, p);
    if p.becomes == p.shown {
      InOrderAppend(p.before, 0, pending, p.token);
    } else {
      InOrderPicked(p.before + p.token, pending, p);
    }
  }

  lemma InOrderPicked(text: string, pending: seq<Replacement>, p: Picked)
    requires text == p.before + p.token && p.shown != "" && p.shown <= p.token
    requires InOrder(p.before, 0, pending)
    ensures InOrder(text, 0, pending + [PickedReplacement(p)])
  {
    StandsFurther(p.before, p.token, p.shown, 0);
    InOrderSnoc(text, p.before, 0, pending, PickedReplacement(p), pending + [PickedReplacement(p)]);
  }

  lemma PickStands(s: State, display: string, styled: string)
    requires PicksStand(s.message, s.pending) && display != ""
    ensures PicksStand(AfterPick(s, display, styled).message, AfterPick(s, display, styled).pending)
  {
    var p := PickFor(s.message, display, styled);
    PickAppends(s.pending, p);
    PickedInOrder(s.pending, p);
    SpaceAtEnd(p.before, p.token);
  }

  lemma MoreBeforeToken(message: string, text: string)
    requires message <= text
    ensures BeforeToken(message) <= BeforeToken(text)
  {
    var cut := LastSpace(message) + 1;
    assert cut > 0 ==> text[cut - 1] == ' ';
    assert message[..cut] == text[..cut];
  }

  lemma TypingMoreStands(message: string, pending: seq<Replacement>, text: string)
    requires PicksStand(message, pending) && message <= text
    ensures PicksStand(text, pending)
  {
    var before, more := BeforeToken(message), BeforeToken(text);
    MoreBeforeToken(message, text);
    CutAt(more, |before|);
    assert more[..|before|] == before;
    InOrderAppend(before, 0, pending, more[|before|..]);
  }

  lemma StandingAreKept(text: string, pending: seq<Replacement>)
    requires PicksStand(text, pending)
    ensures Kept(pending, text) == if Blank(text) then [] else pending
  {
    StandingPicks(text, pending);
    StandInPlace(text, pending);
    forall r | r in pending ensures ShownIn(text, r) {
      assert StandsAt(text, r.display, r.start);
    }
    FilterKeepsAll(pending, r => ShownIn(text, r));
  }

  /** Events that only pick nicks, type on at the end, or empty the message. */
  predicate Appends(s: State, action: Action) {
    match action
    case Edit(text) => s.message <= text || Blank(text)
    case SetText(text) => s.message <= text
    case PickNick(display, _) => display != ""
    case _ => true
  }

  lemma AppendedStands(tab: Tab, s: State, action: Action, online: bool)
    requires PicksStand(s.message, s.pending) && Appends(s, action)
    ensures PicksStand(After(tab, s, action, online).message, After(tab, s, action, online).pending)
  {
    if s.mounted {
      match action
      case Edit(text) => EditStands(tab, s, text, online);
      case SetText(text) => TypingMoreStands(s.message, s.pending, text);
      case PickNick(display, styled) => PickStands(s, display, styled);
      case _ =>
    }
  }

  lemma EditStands(tab: Tab, s: State, text: string, online: bool)
    requires PicksStand(s.message, s.pending) && (s.message <= text || Blank(text))
    ensures PicksStand(text, Kept(s.pending, text))
    ensures AfterEdit(tab, s, text, online).message == text
    ensures AfterEdit(tab, s, text, online).pending == Kept(s.pending, text)
  {
    if !Blank(text) {
      TypingMoreStands(s.message, s.pending, text);
      StandingAreKept(text, s.pending);
    }
  }

  ghost predicate AppendedRun(tab: Tab, events: seq<Event>) {
    forall k :: 0 <= k < |events| ==> Appends(Run(tab, events[..k]), events[k].action)
  }

  lemma {:induction false} AppendedRunsStand(tab: Tab, events: seq<Event>)
    requires AppendedRun(tab, events)
    ensures PicksStand(Run(tab, events).message, Run(tab, events).pending)
  {
    if events != [] {
      var n := |events| - 1;
      forall k | 0 <= k < n ensures Appends(Run(tab, events[..n][..k]), events[..n][k].action) {
        assert events[..n][..k] == events[..k];
      }
      AppendedRunsStand(tab, events[..n]);
      AppendedStands(tab, Run(tab, events[..n]), events[n].action, events[n].online);
    }
  }

  /**
   * After every run of picks and typing at the end, however many nicks are pending, a submit styles
   * each in its own place if each turn lands there, and with closing styles only then.
   */
  lemma PicksAreSubmittedExactly(tab: Tab, events: seq<Event>)
    requires AppendedRun(tab, events)
    ensures var s := Run(tab, events);
            && InOrder(s.message, 0, s.pending)
            && (EachLands(s.message, |s.message|, s.pending) && !StartsWith(Trim(s.message), '/') ==>
                  Outgoing(s) == Trim(Substituted(s.message, 0, s.pending)))
            && ((forall i :: 0 <= i < |s.pending| ==> Closes(s.pending[i])) ==>
                  (ApplyAll(s.message, s.pending) == Substituted(s.message, 0, s.pending)
                   <==> EachLands(s.message, |s.message|, s.pending)))
  {
    var s := Run(tab, events);
    AppendedRunsStand(tab, events);
    StandingPicks(s.message, s.pending);
    if EachLands(s.message, |s.message|, s.pending) {
      LandedIsSubstituted(s.message, s.pending);
    }
    if forall i :: 0 <= i < |s.pending| ==> Closes(s.pending[i]) {
      SubstitutedExactly(s.message, s.pending);
    }
  }

  /**
   * A nick picked while others are pending: all of them are submitted in their own places if each turn
   * lands there.
   */
  lemma PickThenSubmit(s: State, display: string, styled: string)
    requires PicksStand(s.message, s.pending) && display != ""
    ensures var t := AfterPick(s, display, styled);
            && InOrder(t.message, 0, t.pending)
            && t.pending == WithPick(s.pending, PickFor(s.message, display, styled))
            && (EachLands(t.message, |t.message|, t.pending) && !StartsWith(Trim(t.message), '/') ==>
                  Outgoing(t) == Trim(Substituted(t.message, 0, t.pending)))
  {
    var t := AfterPick(s, display, styled);
    PickStands(s, display, styled);
    StandingPicks(t.message, t.pending);
    if EachLands(t.message, |t.message|, t.pending) {
      LandedIsSubstituted(t.message, t.pending);
    }
  }

  /**
   * The first nick picked is always submitted in its styled form in the place of the token it was picked
   * for, with the rest of the message as it was.
   */
  lemma FirstPickThenSubmit(s: State, display: string, styled: string)
    requires s.pending == []
    requires !StartsWith(Trim(AfterPick(s, display, styled).message), '/')
    ensures var p := PickFor(s.message, display, styled);
            && p.before + p.rawToken == s.message
            && AfterPick(s, display, styled).message == p.before + p.token
            && Outgoing(AfterPick(s, display, styled)) == Trim(p.before + p.becomes + p.token[|p.shown|..])
  {
    var p := PickFor(s.message, display, styled);
    CutAt(s.message, LastSpace(s.message) + 1);
    CutAt(p.token, |p.shown|);
    SubmitAfterPick(p, p.token[|p.shown|..]);
  }

  lemma SubmitAfterPick(p: Picked, after: string)
    requires p.token == p.shown + after
    ensures ApplyAll(p.before + p.token, WithPick([], p)) == p.before + p.becomes + after
  {
    Regroup(p.before, p.shown, after);
    if p.becomes != p.shown {
      var r := PickedReplacement(p);
      assert WithPick([], p) == [r];
      ApplySingle(p.before + p.token, r);
      ApplyInPlace(p.before, after, r);
    }
  }

  lemma ApplyInPlace(before: string, after: string, r: Replacement)
    requires r.start == |before|
    ensures ApplyOne(before + r.display + after, r) == before + r.styled + after
  {
    var text := before + r.display + after;
    assert text[|before|..|before| + |r.display|] == r.display;
    assert text[..|before|] == before && text[|before| + |r.display|..] == after;
  }

  lemma ApplySingle(text: string, r: Replacement)
    ensures ApplyAll(text, [r]) == ApplyOne(text, r)
  {
    assert [r][1..] == [];
  }

  // ----- Two picks of one nick -----

  lemma FirstTurnOfTwo()
    ensures ApplyOne("bob bob ", Replacement(0, 3, "bob", "bob:")) == "bob: bob "
  {
    assert "bob bob "[0..3] == "bob" && "bob bob "[3..] == " bob ";
  }

  lemma SecondTurnOfTwo()
    ensures var next, r := "bob: bob ", Replacement(4, 7, "bob", "bob:");
            ApplyOne(next, r) == "bob:: bob " && !LandsAt(next, r, 5)
  {
    var next := "bob: bob ";
    assert next[4..7][0] == ' ';
    assert next[0..3] == "bob" && next[3..] == ": bob ";
    assert StandsAt(next, "bob", 0);
  }

  lemma SubstitutedCons(rest: string, from: nat, r: Replacement, beyond: string, rs: seq<Replacement>)
    requires r.display != "" && StandsAt(rest, r.display, r.start - from) && beyond == Beyond(rest, from, r)
    requires InOrder(beyond, r.start + |r.display|, rs)
    ensures InOrder(rest, from, [r] + rs)
    ensures Substituted(rest, from, [r] + rs)
         == Filled(rest, from, r) + Substituted(beyond, r.start + |r.display|, rs)
  {
    assert ([r] + rs)[1..] == rs;
  }

  lemma SecondSubstituted(rest: string, second: Replacement)
    requires rest == " bob " && second == Replacement(4, 7, "bob", "bob:")
    ensures InOrder(rest, 3, [second]) && Substituted(rest, 3, [second]) == " bob: "
  {
    assert rest[1..4] == "bob" && rest[4..] == " " && rest[..1] == " ";
    SubstitutedCons(rest, 3, second, " ", []);
    assert [second] + [] == [second];
  }

  lemma FilledAtHead(text: string, r: Replacement)
    requires r.start == 0 && StandsAt(text, r.display, 0)
    ensures Filled(text, 0, r) == r.styled
  {
    NothingBefore(r.styled);
    assert text[..0] == "";
  }

  lemma FirstStands(text: string)
    requires text == "bob bob "
    ensures StandsAt(text, "bob", 0) && text[3..] == " bob "
  {
    assert text[0..3] == "bob";
  }

  /** The two steps of a substitution, with the texts between them. */
  lemma TwoSubstituted(text: string, first: Replacement, second: Replacement, filled: string, rest: string,
                       more: string)
    requires first.display != "" && StandsAt(text, first.display, first.start)
    requires filled == Filled(text, 0, first) && rest == Beyond(text, 0, first)
    requires InOrder(rest, first.start + |first.display|, [second])
    requires more == Substituted(rest, first.start + |first.display|, [second])
    ensures InOrder(text, 0, [first] + [second]) && Substituted(text, 0, [first] + [second]) == filled + more
  {
    SubstitutedCons(text, 0, first, rest, [second]);
  }

  lemma BothSubstituted(text: string, first: Replacement, second: Replacement)
    requires text == "bob bob "
    requires first == Replacement(0, 3, "bob", "bob:") && second == Replacement(4, 7, "bob", "bob:")
    ensures InOrder(text, 0, [first] + [second]) && Substituted(text, 0, [first] + [second]) == "bob: bob: "
  {
    FirstStands(text);
    FilledAtHead(text, first);
    SecondSubstituted(" bob ", second);
    TwoSubstituted(text, first, second, "bob:", " bob ", " bob: ");
  }

  lemma BothApplied(first: Replacement, second: Replacement)
    requires first == Replacement(0, 3, "bob", "bob:") && second == Replacement(4, 7, "bob", "bob:")
    ensures ApplyAll("bob bob ", [first, second]) == "bob:: bob " && !EachLands("bob bob ", 8, [first, second])
  {
    assert [first, second][1..] == [second] && [second][1..] == [];
    FirstTurnOfTwo();
    SecondTurnOfTwo();
    assert ApplyAll("bob: bob ", [second]) == "bob:: bob ";
    assert !EachLands("bob: bob ", 8, [second]);
  }

  lemma PickedOnce()
    ensures var s := AfterPick(Fresh, "bob", "bob:");
            s == Fresh.(message := "bob ", pending := [Replacement(0, 3, "bob", "bob:")])
  {
    assert Picked("", "", "bob", "bob:", "bob ") == PickFor("", "bob", "bob:");
  }

  lemma PickedTwice(s: State)
    requires s.message == "bob " && s.pending == [Replacement(0, 3, "bob", "bob:")]
    ensures var t := AfterPick(s, "bob", "bob:");
            t.message == "bob bob "
            && t.pending == [Replacement(0, 3, "bob", "bob:"), Replacement(4, 7, "bob", "bob:")]
  {
    assert LastSpace("bob ") == 3;
    assert "bob "[..4] == "bob " && "bob "[4..] == "";
    assert PickFor("bob ", "bob", "bob:") == Picked("bob ", "", "bob", "bob:", "bob ");
    assert s.pending[1..] == [];
    assert Shifted(s.pending, 4, 4, 4) == s.pending;
  }

  lemma TwoPicks(tab: Tab)
    ensures var pick := Event(PickNick("bob", "bob:"), true);
            var s := Run(tab, [pick, pick]);
            s.message == "bob bob "
            && s.pending == [Replacement(0, 3, "bob", "bob:"), Replacement(4, 7, "bob", "bob:")]
  {
    var pick := Event(PickNick("bob", "bob:"), true);
    assert [pick, pick][..1] == [pick] && [pick][..0] == [];
    PickedOnce();
    assert Run(tab, []) == Fresh && Run(tab, [pick]) == AfterPick(Fresh, "bob", "bob:");
    PickedTwice(Run(tab, [pick]));
  }

  /** Two picks of one nick with a closing colon: the second turn styles the first nick again. */
  lemma SecondPickLandsOnFirst(tab: Tab)
    ensures var pick := Event(PickNick("bob", "bob:"), true);
            var s := Run(tab, [pick, pick]);
            && s.message == "bob bob " && |s.pending| == 2 && Closes(s.pending[0]) && Closes(s.pending[1])
            && InOrder(s.message, 0, s.pending) && Substituted(s.message, 0, s.pending) == "bob: bob: "
            && !EachLands(s.message, |s.message|, s.pending) && ApplyAll(s.message, s.pending) == "bob:: bob "
  {
    var first, second := Replacement(0, 3, "bob", "bob:"), Replacement(4, 7, "bob", "bob:");
    TwoPicks(tab);
    BothSubstituted("bob bob ", first, second);
    BothApplied(first, second);
    assert [first] + [second] == [first, second];
  }

  /** Without a closing character a turn elsewhere can give the same text. */
  lemma SameTextElsewhere(next: string, r: Replacement)
    requires next == "aaa" && r == Replacement(1, 2, "a", "aa")
    ensures StandsAt(next, r.display, 2) && !LandsAt(next, r, 2)
    ensures ApplyOne(next, r) == next[..2] + r.styled + next[3..]
  {
    assert next[1..2] == "a" && next[2..3] == "a";
    assert next[..1] + r.styled + next[2..] == next[..2] + r.styled + next[3..];
  }

  // ----- When offsets do not matter -----

  ghost predicate AtMostOnce(text: string, display: string) {
    forall i, j :: StandsAt(text, display, i) && StandsAt(text, display, j) ==> i == j
  }

  /** Each display text stands at most once in the text at its turn. */
  ghost predicate OnceEach(text: string, rs: seq<Replacement>)
    decreases |rs|
  {
    rs == [] || (AtMostOnce(text, rs[0].display) && OnceEach(ApplyOne(text, rs[0]), rs[1..]))
  }

  /** The same replacements but for the recorded offsets. */
  predicate SameTexts(rs: seq<Replacement>, others: seq<Replacement>) {
    |rs| == |others| &&
    forall i :: 0 <= i < |rs| ==> rs[i].display == others[i].display && rs[i].styled == others[i].styled
  }

  lemma OneOffsetDoesNotMatter(text: string, r: Replacement, other: Replacement)
    requires AtMostOnce(text, r.display) && r.display == other.display && r.styled == other.styled
    ensures ApplyOne(text, r) == ApplyOne(text, other)
  {
  }

  /** Then what is submitted does not depend on the recorded offsets. */
  lemma {:induction false} OffsetsDoNotMatter(text: string, rs: seq<Replacement>, others: seq<Replacement>)
    requires SameTexts(rs, others) && OnceEach(text, rs)
    ensures ApplyAll(text, rs) == ApplyAll(text, others)
    decreases |rs|
  {
    if rs != [] {
      OneOffsetDoesNotMatter(text, rs[0], others[0]);
      OffsetsDoNotMatter(ApplyOne(text, rs[0]), rs[1..], others[1..]);
    }
  }

  lemma TwoPlacesDiffer(text: string, r: Replacement, other: Replacement, c: char)
    requires r.display == other.display && r.styled == other.styled && r.start < other.start
    requires InPlace(text, r) && InPlace(text, other)
    requires c in r.styled && c !in text
    ensures ApplyOne(text, r) != ApplyOne(text, other)
  {
    var first := IndexOf(r.styled, c);
    var at := r.start + first;
    assert ApplyOne(text, r)[at] == c;
    if at < other.start {
      assert ApplyOne(text, other)[at] == text[at];
    } else {
      assert ApplyOne(text, other)[at] == r.styled[at - other.start];
      assert r.styled[at - other.start] == r.styled[..first][at - other.start];
    }
  }

  /**
   * A styled form with a character that is new to the text: its turn gives one result for all recorded
   * offsets exactly when its display text stands at most once.
   */
  lemma OffsetMattersExactly(text: string, display: string, styled: string, c: char)
    requires c in styled && c !in text
    ensures (forall r: Replacement, other: Replacement ::
              r.display == other.display == display && r.styled == other.styled == styled ==>
                ApplyOne(text, r) == ApplyOne(text, other))
       <==> AtMostOnce(text, display)
  {
    if AtMostOnce(text, display) {
      forall r: Replacement, other: Replacement
        | r.display == other.display == display && r.styled == other.styled == styled
        ensures ApplyOne(text, r) == ApplyOne(text, other)
      {
        OneOffsetDoesNotMatter(text, r, other);
      }
    } else {
      var i, j :| StandsAt(text, display, i) && StandsAt(text, display, j) && i != j;
      var low, high := if i < j then i else j, if i < j then j else i;
      TwoPlacesDiffer(text, Replacement(low, low + |display|, display, styled),
                      Replacement(high, high + |display|, display, styled), c);
    }
  }

  // ----- At most one place each -----

  lemma OnceTurn(next: string, done: string, rest: string, from: nat, r: Replacement) returns (before: string)
    requires next == done + rest && StandsAt(rest, r.display, r.start - from)
    requires AtMostOnce(next, r.display)
    ensures LandsAt(next, r, |done| + r.start - from)
    ensures ApplyOne(next, r) == before + Beyond(rest, from, r)
  {
    StandsFurther(done, rest, r.display, r.start - from);
    before := LandedTurn(next, done, rest, from, r);
  }

  /** If each display text stands at most once at its turn, each turn lands in its place. */
  lemma {:induction false} OnceEachLands(next: string, done: string, rest: string, from: nat, length: nat,
                                         rs: seq<Replacement>)
    requires next == done + rest && length == from + |rest| && InOrder(rest, from, rs)
    requires OnceEach(next, rs)
    ensures EachLands(next, length, rs)
    decreases |rs|
  {
    if rs != [] {
      var after, filled, more, end := FirstTurn(next, rest, from, length, rs);
      var before := OnceTurn(next, done, rest, from, rs[0]);
      OnceEachLands(after, before, more, end, length, rs[1..]);
    }
  }

  lemma OnceEachIsSubstituted(text: string, rs: seq<Replacement>)
    requires InOrder(text, 0, rs) && OnceEach(text, rs)
    ensures ApplyAll(text, rs) == Substituted(text, 0, rs)
  {
    NothingBefore(text);
    OnceEachLands(text, "", text, 0, |text|, rs);
    LandedIsSubstituted(text, rs);
  }
}
