/** The channel user list: one ranking of users, written in five ways. */
module UserList {
  import opened Text
  import Sorting

  /** Channel modes are single letters. */
  datatype User = User(nick: string, account: Option<string>, modes: seq<char>)

  datatype Rank = Owner | Admin | Op | HalfOp | Voice | Regular

  // ----- The ranking the list is about -----

  function RankOfMode(mode: char): Rank {
    match mode
    case 'q' => Owner
    case 'a' => Admin
    case 'o' => Op
    case 'h' => HalfOp
    case 'v' => Voice
    case _ => Regular
  }

  function Level(rank: Rank): nat {
    match rank
    case Owner => 0
    case Admin => 1
    case Op => 2
    case HalfOp => 3
    case Voice => 4
    case Regular => 5
  }

  /** `rank` is the best that `modes` give: one of them gives it (or it is the lowest), none a better one. */
  predicate IsRank(rank: Rank, modes: seq<char>) {
    && (rank == Regular || exists i :: 0 <= i < |modes| && RankOfMode(modes[i]) == rank)
    && forall i :: 0 <= i < |modes| ==> Level(rank) <= Level(RankOfMode(modes[i]))
  }

  lemma RankIsUnique(r: Rank, s: Rank, modes: seq<char>)
    requires IsRank(r, modes) && IsRank(s, modes)
    ensures r == s
  {
    assert Level(r) == Level(s);
  }

  // ----- The five ways -----

  /** `getNickPrefix`. */
  function NickPrefix(modes: Option<seq<char>>): string {
    if modes.None? || modes.value == [] then ""
    else if 'q' in modes.value then "~"
    else if 'a' in modes.value then "&"
    else if 'o' in modes.value then "@"
    else if 'h' in modes.value then "%"
    else if 'v' in modes.value then "+"
    else ""
  }

  /** `colors?.name || fallback`: a missing or empty theme entry gives the fallback. */
  function Themed(theme: map<string, string>, name: string, fallback: string): string {
    if name in theme && theme[name] != "" then theme[name] else fallback
  }

  /** `getModeColor`. */
  function ModeColor(modes: Option<seq<char>>, theme: map<string, string>): string {
    if modes.None? || modes.value == [] then Themed(theme, "userNormal", Themed(theme, "text", "#212121"))
    else if 'q' in modes.value then Themed(theme, "userOwner", "#9C27B0")
    else if 'a' in modes.value then Themed(theme, "userAdmin", "#F44336")
    else if 'o' in modes.value then Themed(theme, "userOp", "#FF9800")
    else if 'h' in modes.value then Themed(theme, "userHalfop", "#2196F3")
    else if 'v' in modes.value then Themed(theme, "userVoice", "#4CAF50")
    else Themed(theme, "userNormal", Themed(theme, "text", "#212121"))
  }

  /** `modePriority[mode] ?? 99`. */
  function ModePriority(mode: char): nat {
    match mode
    case 'q' => 0
    case 'a' => 1
    case 'o' => 2
    case 'h' => 3
    case 'v' => 4
    case _ => 99
  }

  /** The `reduce` that picks the highest mode: the first one of the smallest priority. */
  function HighestFrom(best: char, modes: seq<char>): char
    decreases |modes|
  {
    if modes == [] then best
    else HighestFrom(if ModePriority(modes[0]) < ModePriority(best) then modes[0] else best, modes[1..])
  }

  /** The group a user is pushed to. */
  function GroupOf(modes: seq<char>): Rank {
    if modes == [] then Regular else RankOfMode(HighestFrom(modes[0], modes[1..]))
  }

  /** `Math.min(...priorities)` over the modes after the first. */
  function MinPriority(least: nat, modes: seq<char>): nat
    decreases |modes|
  {
    if modes == [] then least
    else MinPriority(if ModePriority(modes[0]) < least then ModePriority(modes[0]) else least, modes[1..])
  }

  /** `getHighestPriority`. */
  function HighestPriority(modes: seq<char>): nat {
    if modes == [] then 99 else MinPriority(ModePriority(modes[0]), modes[1..])
  }

  // ----- They name the same rank -----

  function PrefixOfRank(rank: Rank): string {
    match rank
    case Owner => "~"
    case Admin => "&"
    case Op => "@"
    case HalfOp => "%"
    case Voice => "+"
    case Regular => ""
  }

  function ColorOfRank(rank: Rank, theme: map<string, string>): string {
    match rank
    case Owner => Themed(theme, "userOwner", "#9C27B0")
    case Admin => Themed(theme, "userAdmin", "#F44336")
    case Op => Themed(theme, "userOp", "#FF9800")
    case HalfOp => Themed(theme, "userHalfop", "#2196F3")
    case Voice => Themed(theme, "userVoice", "#4CAF50")
    case Regular => Themed(theme, "userNormal", Themed(theme, "text", "#212121"))
  }

  function PriorityOfRank(rank: Rank): nat {
    if rank == Regular then 99 else Level(rank)
  }

  lemma {:induction false} HighestIsBest(best: char, modes: seq<char>)
    ensures var h := HighestFrom(best, modes);
            && (h == best || h in modes)
            && ModePriority(h) <= ModePriority(best)
            && forall i :: 0 <= i < |modes| ==> ModePriority(h) <= ModePriority(modes[i])
    decreases |modes|
  {
    if modes != [] {
      HighestIsBest(if ModePriority(modes[0]) < ModePriority(best) then modes[0] else best, modes[1..]);
    }
  }

  lemma {:induction false} MinIsPriorityOfHighest(best: char, modes: seq<char>)
    ensures MinPriority(ModePriority(best), modes) == ModePriority(HighestFrom(best, modes))
    decreases |modes|
  {
    if modes != [] {
      MinIsPriorityOfHighest(if ModePriority(modes[0]) < ModePriority(best) then modes[0] else best, modes[1..]);
    }
  }

  lemma PriorityOrdersRanks(a: char, b: char)
    ensures ModePriority(a) == PriorityOfRank(RankOfMode(a))
    ensures ModePriority(a) <= ModePriority(b) ==> Level(RankOfMode(a)) <= Level(RankOfMode(b))
  {
  }

  /** The group is the rank, and the sort priority is the rank's. */
  lemma GroupIsRank(modes: seq<char>)
    ensures IsRank(GroupOf(modes), modes)
    ensures HighestPriority(modes) == PriorityOfRank(GroupOf(modes))
  {
    if modes != [] {
      var h := HighestFrom(modes[0], modes[1..]);
      HighestIsBest(modes[0], modes[1..]);
      MinIsPriorityOfHighest(modes[0], modes[1..]);
      PriorityOrdersRanks(h, h);
      var at :| 0 <= at < |modes| && modes[at] == h;
      forall i | 0 <= i < |modes| ensures Level(RankOfMode(h)) <= Level(RankOfMode(modes[i])) {
        assert i > 0 ==> modes[i] == modes[1..][i - 1];
        PriorityOrdersRanks(h, modes[i]);
      }
    }
  }

  /** For every list of modes the five computations name one rank. */
  lemma FiveWaysAgree(modes: seq<char>, theme: map<string, string>)
    ensures var rank := GroupOf(modes);
            && IsRank(rank, modes)
            && NickPrefix(Some(modes)) == PrefixOfRank(rank)
            && ModeColor(Some(modes), theme) == ColorOfRank(rank, theme)
            && HighestPriority(modes) == PriorityOfRank(rank)
  {
    GroupIsRank(modes);
    var rank := GroupOf(modes);
    if 'q' in modes {
      RankByLetter(rank, modes, 'q');
    } else if 'a' in modes {
      RankByLetter(rank, modes, 'a');
    } else if 'o' in modes {
      RankByLetter(rank, modes, 'o');
    } else if 'h' in modes {
      RankByLetter(rank, modes, 'h');
    } else if 'v' in modes {
      RankByLetter(rank, modes, 'v');
    }
  }

  lemma RankByLetter(rank: Rank, modes: seq<char>, letter: char)
    requires IsRank(rank, modes) && letter in modes
    requires forall i :: 0 <= i < |modes| ==> Level(RankOfMode(letter)) <= Level(RankOfMode(modes[i]))
    ensures rank == RankOfMode(letter)
  {
    var at :| 0 <= at < |modes| && modes[at] == letter;
    RankIsUnique(rank, RankOfMode(letter), modes);
  }

  // ----- The flat list and the groups -----

  type NickCompare = (string, string) -> int

  /** Compares two users of one group. */
  function ByNick(compare: NickCompare): (User, User) -> int {
    (a: User, b: User) => compare(a.nick, b.nick)
  }

  /** Compares two users of the flat list: by priority, then by nick. */
  function ByRankThenNick(compare: NickCompare): (User, User) -> int {
    (a: User, b: User) =>
      if HighestPriority(a.modes) != HighestPriority(b.modes) then HighestPriority(a.modes) - HighestPriority(b.modes)
      else compare(a.nick, b.nick)
  }

  /** `sortedUsers`: lists over the threshold are left as they are. */
  function SortedUsers(users: seq<User>, threshold: int, compare: NickCompare): seq<User> {
    if |users| > threshold then users else Sorting.Sort(users, ByRankThenNick(compare))
  }

  function HasRank(rank: Rank): User -> bool {
    (user: User) => GroupOf(user.modes) == rank
  }

  /** The users of one rank, in the order of the list. */
  function OfRank(users: seq<User>, rank: Rank): seq<User> {
    Filter(users, HasRank(rank))
  }

  function Group(users: seq<User>, rank: Rank, compare: NickCompare): seq<User> {
    Sorting.Sort(OfRank(users, rank), ByNick(compare))
  }

  type Groups = map<Rank, seq<User>>

  const RANKS: seq<Rank> := [Owner, Admin, Op, HalfOp, Voice, Regular]

  predicate IsGrouping(groups: Groups, users: seq<User>, compare: NickCompare) {
    forall rank: Rank :: rank in groups && groups[rank] == Group(users, rank, compare)
  }

  /** The group of a rank once the groups before the one at `k` are sorted. */
  function GroupedTo(users: seq<User>, rank: Rank, k: nat, compare: NickCompare): seq<User> {
    if Level(rank) < k then Group(users, rank, compare) else OfRank(users, rank)
  }

  lemma RankAt(k: nat)
    requires k < |RANKS|
    ensures forall rank: Rank :: rank == RANKS[k] <==> Level(rank) == k
  {
  }

  /** `groupedUsers`: push every user to the group of its highest mode, then sort each group. */
  method GroupUsers(users: seq<User>, compare: NickCompare) returns (groups: Groups)
    ensures IsGrouping(groups, users, compare)
  {
    groups := PushToGroups(users);
    var k := 0;
    while k < |RANKS|
      invariant 0 <= k <= |RANKS|
      invariant forall rank: Rank :: rank in groups && groups[rank] == GroupedTo(users, rank, k, compare)
    {
      RankAt(k);
      groups := groups[RANKS[k] := Sorting.Sort(groups[RANKS[k]], ByNick(compare))];
      k := k + 1;
    }
  }

  method PushToGroups(users: seq<User>) returns (groups: Groups)
    ensures forall rank: Rank :: rank in groups && groups[rank] == OfRank(users, rank)
  {
    groups := map[Owner := [], Admin := [], Op := [], HalfOp := [], Voice := [], Regular := []];
    EmptyGroups(groups);
    var i := 0;
    while i < |users|
      invariant 0 <= i <= |users|
      invariant forall rank: Rank :: rank in groups && groups[rank] == OfRank(users[..i], rank)
    {
      var rank := GroupOf(users[i].modes);
      assert users[..i + 1] == users[..i] + [users[i]];
      forall r: Rank ensures OfRank(users[..i + 1], r) == OfRank(users[..i], r) + if r == rank then [users[i]] else [] {
        OfRankSnoc(users[..i], users[i], r);
      }
      groups := groups[rank := groups[rank] + [users[i]]];
      i := i + 1;
    }
    assert users[..i] == users;
  }

  lemma EmptyGroups(groups: Groups)
    requires groups == map[Owner := [], Admin := [], Op := [], HalfOp := [], Voice := [], Regular := []]
    ensures forall rank: Rank :: rank in groups && groups[rank] == []
  {
    forall rank: Rank ensures rank in groups && groups[rank] == [] {
      match rank {
        case Owner => case Admin => case Op => case HalfOp => case Voice => case Regular =>
      }
    }
  }

  lemma OfRankSnoc(users: seq<User>, user: User, rank: Rank)
    ensures OfRank(users + [user], rank) == OfRank(users, rank) + if GroupOf(user.modes) == rank then [user] else []
  {
    FilterAppend(users, [user], HasRank(rank));
    assert OfRank([user], rank) == if GroupOf(user.modes) == rank then [user] else [];
  }

  /** The groups one after the other, from the rank at `k` on. */
  function GroupsFrom(users: seq<User>, k: nat, compare: NickCompare): seq<User>
    requires k <= |RANKS|
    decreases |RANKS| - k
  {
    if k == |RANKS| then [] else Group(users, RANKS[k], compare) + GroupsFrom(users, k + 1, compare)
  }

  lemma SortedMembers<T>(xs: seq<T>, compare: (T, T) -> int)
    ensures forall i :: 0 <= i < |Sorting.Sort(xs, compare)| ==> Sorting.Sort(xs, compare)[i] in xs
  {
    var sorted := Sorting.Sort(xs, compare);
    Sorting.SortKeepsElements(xs, compare);
    forall i | 0 <= i < |sorted| ensures sorted[i] in xs {
      assert sorted[i] in multiset(sorted);
    }
  }

  lemma GroupMembers(users: seq<User>, rank: Rank, compare: NickCompare)
    ensures forall i :: 0 <= i < |Group(users, rank, compare)| ==> GroupOf(Group(users, rank, compare)[i].modes) == rank
  {
    SortedMembers(OfRank(users, rank), ByNick(compare));
  }

  /** Inserting by rank and nick passes over users of better rank... */
  lemma {:induction false} InsertPasses(x: User, better: seq<User>, rest: seq<User>, compare: NickCompare)
    requires forall i :: 0 <= i < |better| ==> HighestPriority(better[i].modes) < HighestPriority(x.modes)
    ensures Sorting.Insert(x, better + rest, ByRankThenNick(compare))
         == better + Sorting.Insert(x, rest, ByRankThenNick(compare))
  {
    if better == [] {
      assert better + rest == rest;
    } else {
      assert (better + rest)[1..] == better[1..] + rest;
      InsertPasses(x, better[1..], rest, compare);
    }
  }

  /** ...goes into its own group as an insertion by nick does, and leaves users of lesser rank behind. */
  lemma {:induction false} InsertInGroup(x: User, group: seq<User>, lesser: seq<User>, compare: NickCompare)
    requires forall i :: 0 <= i < |group| ==> HighestPriority(group[i].modes) == HighestPriority(x.modes)
    requires lesser != [] ==> HighestPriority(x.modes) < HighestPriority(lesser[0].modes)
    ensures Sorting.Insert(x, group + lesser, ByRankThenNick(compare))
         == Sorting.Insert(x, group, ByNick(compare)) + lesser
  {
    if group == [] {
      assert group + lesser == lesser;
    } else {
      assert (group + lesser)[1..] == group[1..] + lesser;
      InsertInGroup(x, group[1..], lesser, compare);
    }
  }

  lemma PriorityOfGroup(user: User, rank: Rank)
    requires GroupOf(user.modes) == rank
    ensures HighestPriority(user.modes) == PriorityOfRank(rank)
  {
    GroupIsRank(user.modes);
  }

  /** The first user from group `k` on has at least that group's priority. */
  lemma {:induction false} GroupsFromHead(users: seq<User>, k: nat, compare: NickCompare)
    requires k <= |RANKS|
    ensures GroupsFrom(users, k, compare) != [] ==>
      k < |RANKS| && PriorityOfRank(RANKS[k]) <= HighestPriority(GroupsFrom(users, k, compare)[0].modes)
    decreases |RANKS| - k
  {
    if k < |RANKS| {
      GroupsFromHead(users, k + 1, compare);
      if Group(users, RANKS[k], compare) != [] {
        GroupHead(users, RANKS[k], compare);
      } else {
        assert GroupsFrom(users, k, compare) == GroupsFrom(users, k + 1, compare);
        RankAt(k);
        NextRank(RANKS[k]);
      }
    }
  }

  lemma GroupHead(users: seq<User>, rank: Rank, compare: NickCompare)
    requires Group(users, rank, compare) != []
    ensures HighestPriority(Group(users, rank, compare)[0].modes) == PriorityOfRank(rank)
  {
    GroupMembers(users, rank, compare);
    PriorityOfGroup(Group(users, rank, compare)[0], rank);
  }

  /** Adding a user in front of the list inserts it into the concatenated groups. */
  lemma {:induction false} InsertIntoGroups(x: User, users: seq<User>, k: nat, compare: NickCompare)
    requires k <= Level(GroupOf(x.modes))
    ensures GroupsFrom([x] + users, k, compare)
         == Sorting.Insert(x, GroupsFrom(users, k, compare), ByRankThenNick(compare))
    decreases |RANKS| - k
  {
    if k < Level(GroupOf(x.modes)) {
      InsertIntoGroups(x, users, k + 1, compare);
      InsertPastGroup(x, users, k, compare);
    } else {
      InsertIntoOwnGroup(x, users, compare);
      GroupsWithout(x, users, k + 1, compare);
    }
  }

  lemma InsertPastGroup(x: User, users: seq<User>, k: nat, compare: NickCompare)
    requires k < Level(GroupOf(x.modes))
    ensures Group([x] + users, RANKS[k], compare) == Group(users, RANKS[k], compare)
    ensures var group, rest := Group(users, RANKS[k], compare), GroupsFrom(users, k + 1, compare);
            Sorting.Insert(x, group + rest, ByRankThenNick(compare))
            == group + Sorting.Insert(x, rest, ByRankThenNick(compare))
  {
    var group := Group(users, RANKS[k], compare);
    assert Level(RANKS[k]) == k;
    GroupWithout(x, users, RANKS[k], compare);
    GroupPriorities(users, RANKS[k], compare);
    PriorityOfGroup(x, GroupOf(x.modes));
    InsertPasses(x, group, GroupsFrom(users, k + 1, compare), compare);
  }

  lemma InsertIntoOwnGroup(x: User, users: seq<User>, compare: NickCompare)
    ensures var rank := GroupOf(x.modes); var rest := GroupsFrom(users, Level(rank) + 1, compare);
            Sorting.Insert(x, Group(users, rank, compare) + rest, ByRankThenNick(compare))
            == Group([x] + users, rank, compare) + rest
    ensures RANKS[Level(GroupOf(x.modes))] == GroupOf(x.modes)
  {
    var rank := GroupOf(x.modes);
    RankAt(Level(rank));
    GroupCons(x, users, rank, compare);
    GroupPriorities(users, rank, compare);
    PriorityOfGroup(x, rank);
    LesserBehind(users, rank, compare);
    InsertInGroup(x, Group(users, rank, compare), GroupsFrom(users, Level(rank) + 1, compare), compare);
  }

  lemma NextRank(rank: Rank)
    ensures Level(rank) + 1 < |RANKS| ==> PriorityOfRank(rank) < PriorityOfRank(RANKS[Level(rank) + 1])
  {
  }

  lemma LesserBehind(users: seq<User>, rank: Rank, compare: NickCompare)
    ensures var lesser := GroupsFrom(users, Level(rank) + 1, compare);
            lesser != [] ==> PriorityOfRank(rank) < HighestPriority(lesser[0].modes)
  {
    GroupsFromHead(users, Level(rank) + 1, compare);
    NextRank(rank);
  }

  lemma GroupCons(x: User, users: seq<User>, rank: Rank, compare: NickCompare)
    requires GroupOf(x.modes) == rank
    ensures Group([x] + users, rank, compare) == Sorting.Insert(x, Group(users, rank, compare), ByNick(compare))
  {
    OfRankCons(x, users, rank);
    SortCons(x, OfRank(users, rank), ByNick(compare));
  }

  lemma GroupWithout(x: User, users: seq<User>, rank: Rank, compare: NickCompare)
    requires GroupOf(x.modes) != rank
    ensures Group([x] + users, rank, compare) == Group(users, rank, compare)
  {
    OfRankCons(x, users, rank);
    assert [] + OfRank(users, rank) == OfRank(users, rank);
  }

  lemma SortCons(x: User, users: seq<User>, compare: (User, User) -> int)
    ensures Sorting.Sort([x] + users, compare) == Sorting.Insert(x, Sorting.Sort(users, compare), compare)
  {
    assert ([x] + users)[1..] == users;
  }

  lemma GroupPriorities(users: seq<User>, rank: Rank, compare: NickCompare)
    ensures forall i :: 0 <= i < |Group(users, rank, compare)| ==>
      HighestPriority(Group(users, rank, compare)[i].modes) == PriorityOfRank(rank)
  {
    var group := Group(users, rank, compare);
    GroupMembers(users, rank, compare);
    forall i | 0 <= i < |group| ensures HighestPriority(group[i].modes) == PriorityOfRank(rank) {
      PriorityOfGroup(group[i], rank);
    }
  }

  lemma OfRankCons(x: User, users: seq<User>, rank: Rank)
    ensures OfRank([x] + users, rank) == (if GroupOf(x.modes) == rank then [x] else []) + OfRank(users, rank)
  {
    assert ([x] + users)[1..] == users;
  }

  lemma {:induction false} GroupsWithout(x: User, users: seq<User>, k: nat, compare: NickCompare)
    requires Level(GroupOf(x.modes)) < k <= |RANKS|
    ensures GroupsFrom([x] + users, k, compare) == GroupsFrom(users, k, compare)
    decreases |RANKS| - k
  {
    if k < |RANKS| {
      assert Level(RANKS[k]) == k;
      GroupWithout(x, users, RANKS[k], compare);
      GroupsWithout(x, users, k + 1, compare);
    }
  }

  /** Sorting each group and putting them one after the other is sorting the flat list. */
  lemma {:induction false} GroupsAreFlatSort(users: seq<User>, compare: NickCompare)
    ensures GroupsFrom(users, 0, compare) == Sorting.Sort(users, ByRankThenNick(compare))
  {
    if users == [] {
      NoGroups(0, compare);
    } else {
      GroupsAreFlatSort(users[1..], compare);
      InsertIntoGroups(users[0], users[1..], 0, compare);
      assert users == [users[0]] + users[1..];
    }
  }

  lemma {:induction false} NoGroups(k: nat, compare: NickCompare)
    requires k <= |RANKS|
    ensures GroupsFrom([], k, compare) == []
    decreases |RANKS| - k
  {
    if k < |RANKS| {
      NoGroups(k + 1, compare);
    }
  }

  function Concat(groups: Groups): seq<User>
    requires forall rank: Rank :: rank in groups
  {
    groups[Owner] + (groups[Admin] + (groups[Op] + (groups[HalfOp] + (groups[Voice] + groups[Regular]))))
  }

  lemma ConcatIsGroupsFrom(groups: Groups, users: seq<User>, compare: NickCompare)
    requires IsGrouping(groups, users, compare)
    ensures Concat(groups) == GroupsFrom(users, 0, compare)
  {
    assert GroupsFrom(users, 6, compare) == [];
    assert GroupsFrom(users, 5, compare) == groups[Regular] + [] == groups[Regular];
    assert GroupsFrom(users, 4, compare) == groups[Voice] + groups[Regular];
    assert GroupsFrom(users, 3, compare) == groups[HalfOp] + GroupsFrom(users, 4, compare);
    assert GroupsFrom(users, 2, compare) == groups[Op] + GroupsFrom(users, 3, compare);
    assert GroupsFrom(users, 1, compare) == groups[Admin] + GroupsFrom(users, 2, compare);
  }

  lemma RankThenNickIsComparer(compare: NickCompare)
    requires Sorting.Comparer(compare)
    ensures Sorting.Comparer(ByRankThenNick(compare))
  {
    var both := ByRankThenNick(compare);
    forall a, b ensures both(a, b) < 0 <==> both(b, a) > 0 {
      assert compare(a.nick, b.nick) < 0 <==> compare(b.nick, a.nick) > 0;
    }
    forall a, b, c | Sorting.AtMost(both, a, b) && Sorting.AtMost(both, b, c)
      ensures Sorting.AtMost(both, a, c)
    {
      assert Sorting.AtMost(compare, a.nick, b.nick) && Sorting.AtMost(compare, b.nick, c.nick)
        ==> Sorting.AtMost(compare, a.nick, c.nick);
    }
  }

  lemma SortOfSorted<T(!new)>(xs: seq<T>, compare: (T, T) -> int)
    requires Sorting.Comparer(compare)
    ensures Sorting.Sorted(xs, compare) <==> Sorting.Sort(xs, compare) == xs
  {
    Sorting.AnyStableSort(xs, xs, compare);
  }

  /**
   * The two views show the same users in the same order, ties included, exactly when the list is
   * within the skip-sort threshold or happens to be in rank-and-nick order already.
   */
  lemma ViewsAgreeExactly(users: seq<User>, threshold: int, groups: Groups, compare: NickCompare)
    requires Sorting.Comparer(compare)
    requires IsGrouping(groups, users, compare)
    ensures Concat(groups) == SortedUsers(users, threshold, compare)
       <==> |users| <= threshold || Sorting.Sorted(users, ByRankThenNick(compare))
  {
    ConcatIsGroupsFrom(groups, users, compare);
    GroupsAreFlatSort(users, compare);
    RankThenNickIsComparer(compare);
    SortOfSorted(users, ByRankThenNick(compare));
  }

  // ----- Searching -----

  /** Which users a search keeps; `contains(text, query)` is the case-insensitive substring test. */
  predicate Matches(user: User, query: string, contains: (string, string) -> bool) {
    || contains(user.nick, query)
    || (user.account.Some? && user.account.value != "" && contains(user.account.value, query))
  }

  function Search(users: seq<User>, query: string, contains: (string, string) -> bool): seq<User> {
    if Trim(query) == "" then users else Filter(users, user => Matches(user, query, contains))
  }

  function SearchGroups(groups: Groups, query: string, contains: (string, string) -> bool): (found: Groups)
    ensures found.Keys == groups.Keys
    ensures forall rank :: rank in groups ==> found[rank] == Search(groups[rank], query, contains)
  {
    map rank | rank in groups :: Search(groups[rank], query, contains)
  }

  lemma SearchAppend(a: seq<User>, b: seq<User>, query: string, contains: (string, string) -> bool)
    ensures Search(a + b, query, contains) == Search(a, query, contains) + Search(b, query, contains)
  {
    if Trim(query) != "" {
      FilterAppend(a, b, user => Matches(user, query, contains));
    }
  }

  /** Searching the groups shows what searching the concatenated list shows. */
  lemma SearchOfConcat(groups: Groups, query: string, contains: (string, string) -> bool)
    requires forall rank: Rank :: rank in groups
    ensures Concat(SearchGroups(groups, query, contains)) == Search(Concat(groups), query, contains)
  {
    var five := groups[Voice] + groups[Regular];
    var four := groups[HalfOp] + five;
    var three := groups[Op] + four;
    var two := groups[Admin] + three;
    SearchAppend(groups[Owner], two, query, contains);
    SearchAppend(groups[Admin], three, query, contains);
    SearchAppend(groups[Op], four, query, contains);
    SearchAppend(groups[HalfOp], five, query, contains);
    SearchAppend(groups[Voice], groups[Regular], query, contains);
  }

  /** Filtering after an insertion is inserting after the filtering, or nothing. */
  lemma {:induction false} FilterOfInserted(x: User, s: seq<User>, keep: User -> bool, compare: (User, User) -> int)
    requires Sorting.Comparer(compare) && Sorting.Sorted(s, compare)
    ensures Filter(Sorting.Insert(x, s, compare), keep)
         == if keep(x) then Sorting.Insert(x, Filter(s, keep), compare) else Filter(s, keep)
  {
    if s == [] {
    } else if Sorting.AtMost(compare, x, s[0]) {
      assert ([x] + s)[1..] == s;
      var kept := Filter(s, keep);
      if kept != [] {
        var i :| 0 <= i < |s| && s[i] == kept[0];
        assert i > 0 ==> Sorting.AtMost(compare, s[0], s[i]);
      }
    } else {
      FilterOfInserted(x, s[1..], keep, compare);
    }
  }

  /** Filtering a sorted list is sorting the filtered one. */
  lemma {:induction false} FilterOfSorted(users: seq<User>, keep: User -> bool, compare: (User, User) -> int)
    requires Sorting.Comparer(compare)
    ensures Filter(Sorting.Sort(users, compare), keep) == Sorting.Sort(Filter(users, keep), compare)
  {
    if users != [] {
      var rest := Sorting.Sort(users[1..], compare);
      FilterOfSorted(users[1..], keep, compare);
      Sorting.SortIsStable(users[1..], compare);
      FilterOfInserted(users[0], rest, keep, compare);
      if keep(users[0]) {
        SortCons(users[0], Filter(users[1..], keep), compare);
      }
    }
  }

  lemma SearchOfSorted(users: seq<User>, query: string, contains: (string, string) -> bool,
                       compare: (User, User) -> int)
    requires Sorting.Comparer(compare)
    ensures Search(Sorting.Sort(users, compare), query, contains)
         == Sorting.Sort(Search(users, query, contains), compare)
  {
    if Trim(query) != "" {
      FilterOfSorted(users, user => Matches(user, query, contains), compare);
    }
  }

  /**
   * For every query the grouped and the flat search results agree exactly when the list is within the
   * threshold or what the query finds is in rank-and-nick order already.
   */
  lemma SearchedViewsAgreeExactly(users: seq<User>, threshold: int, groups: Groups, query: string,
                                  contains: (string, string) -> bool, compare: NickCompare)
    requires Sorting.Comparer(compare)
    requires IsGrouping(groups, users, compare)
    ensures Concat(SearchGroups(groups, query, contains))
            == Search(SortedUsers(users, threshold, compare), query, contains)
       <==> |users| <= threshold || Sorting.Sorted(Search(users, query, contains), ByRankThenNick(compare))
  {
    SearchOfConcat(groups, query, contains);
    ConcatIsGroupsFrom(groups, users, compare);
    GroupsAreFlatSort(users, compare);
    RankThenNickIsComparer(compare);
    SearchOfSorted(users, query, contains, ByRankThenNick(compare));
    SortOfSorted(Search(users, query, contains), ByRankThenNick(compare));
  }

  /** All of it for the comparer the list uses, whatever `toLowerCase` does. */
  lemma ListViewsAgreeExactly(users: seq<User>, threshold: int, groups: Groups, lower: string -> string)
    requires IsGrouping(groups, users, Sorting.FoldedComparer(lower))
    ensures Concat(groups) == SortedUsers(users, threshold, Sorting.FoldedComparer(lower))
       <==> |users| <= threshold || Sorting.Sorted(users, ByRankThenNick(Sorting.FoldedComparer(lower)))
  {
    Sorting.FoldedComparerIsComparer(lower);
    ViewsAgreeExactly(users, threshold, groups, Sorting.FoldedComparer(lower));
  }
}
