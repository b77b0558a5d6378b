/** The leaderboard page: rank numbering, the rank badges, the period labels and the podium. */
module Leaderboard {
  import opened Wrappers
  import opened Text

  datatype Badge = Badge(emoji: string, color: string)

  /** The medal strings stand in the page as the characters below (a medal emoji whose UTF-8
      bytes were read as Mac OS Roman); they are kept as written. */
  const Gold := Badge("\U{F8FF}\U{FC}\U{2022}\U{E1}", "text-yellow-500")
  const Silver := Badge("\U{F8FF}\U{FC}\U{2022}\U{E0}", "text-gray-400")
  const Bronze := Badge("\U{F8FF}\U{FC}\U{2022}\U{E2}", "text-orange-600")

  predicate IsMedal(badge: Badge)
  {
    badge == Gold || badge == Silver || badge == Bronze
  }

  /** Ranks 1 to 3 get the three medals; any other rank its number after "#", in grey. */
  function RankBadge(rank: int): (badge: Badge)
    ensures IsMedal(badge) <==> 1 <= rank <= 3
    ensures !IsMedal(badge) ==> badge.color == "text-gray-600" && |badge.emoji| > 1 && badge.emoji[0] == '#'
    ensures !IsMedal(badge) ==> badge.emoji == "#" + IntToString(rank)
    ensures rank == 1 ==> badge == Gold
    ensures rank == 2 ==> badge == Silver
    ensures rank == 3 ==> badge == Bronze
  {
    if rank == 1 then Gold
    else if rank == 2 then Silver
    else if rank == 3 then Bronze
    else Badge("#" + IntToString(rank), "text-gray-600")
  }

  /** No two positions of the board share a badge. */
  lemma RankBadgesDistinct(a: nat, b: nat)
    requires 1 <= a && 1 <= b && a != b
    ensures RankBadge(a) != RankBadge(b)
  {
    if a > 3 && b > 3 {
      var ea := RankBadge(a).emoji;
      var eb := RankBadge(b).emoji;
      assert ea[1..] == NatToString(a) && eb[1..] == NatToString(b);
      NatToStringInjective(a, b);
    }
  }

  /** `labels[key] || key`: the four known periods by name, any other key as it is. */
  function PeriodLabel(key: string): (name: string)
    ensures key !in {"daily", "weekly", "monthly", "alltime"} ==> name == key
    ensures key == "daily" ==> name == "Today"
    ensures key == "weekly" ==> name == "This Week"
    ensures key == "monthly" ==> name == "This Month"
    ensures key == "alltime" ==> name == "All Time"
  {
    match key
    case "daily" => "Today"
    case "weekly" => "This Week"
    case "monthly" => "This Month"
    case "alltime" => "All Time"
    case _ => key
  }

  /** A label is its own label: no period's name is itself a period key. */
  lemma PeriodLabelIdempotent(key: string)
    ensures PeriodLabel(PeriodLabel(key)) == PeriodLabel(key)
  {
  }

  /** The four keys get four different labels. */
  lemma PeriodLabelsDistinct(a: string, b: string)
    requires a in {"daily", "weekly", "monthly", "alltime"} && b in {"daily", "weekly", "monthly", "alltime"}
    requires a != b
    ensures PeriodLabel(a) != PeriodLabel(b)
  {
  }

  /** One entry of `top` as the server sends it. */
  datatype LeaderEntry = LeaderEntry(uid: string, displayName: Option<string>, photoURL: Option<string>, points: int)

  /** One line of the full list. */
  datatype Row = Row(rank: nat, badge: Badge, highlighted: bool, entry: LeaderEntry)

  const PodiumSize := 3

  /** The full list: the user at position i has rank i + 1, its badge, and a highlight when
      among the top three. */
  function Rows(board: seq<LeaderEntry>): (rows: seq<Row>)
    ensures |rows| == |board|
    ensures forall i :: 0 <= i < |rows| ==> rows[i].entry == board[i] && rows[i].rank == i + 1
    ensures forall i :: 0 <= i < |rows| ==> rows[i].badge == RankBadge(i + 1)
    ensures forall i :: 0 <= i < |rows| ==> (rows[i].highlighted <==> i < PodiumSize)
  {
    seq(|board|, i requires 0 <= i < |board| => Row(i + 1, RankBadge(i + 1), i + 1 <= PodiumSize, board[i]))
  }

  /** Exactly the first three rows carry medals, and no two rows carry the same badge. */
  lemma RowsBadges(board: seq<LeaderEntry>)
    ensures forall i :: 0 <= i < |board| ==> (IsMedal(Rows(board)[i].badge) <==> i < PodiumSize)
    ensures forall i, j :: 0 <= i < j < |board| ==> Rows(board)[i].badge != Rows(board)[j].badge
  {
    var rows := Rows(board);
    forall i, j | 0 <= i < j < |board| ensures rows[i].badge != rows[j].badge {
      RankBadgesDistinct(i + 1, j + 1);
    }
  }

  /** The podium, shown only for three users or more: second, first, third from left to right. */
  function Podium(board: seq<LeaderEntry>): (podium: Option<seq<LeaderEntry>>)
    ensures podium.Some? <==> |board| >= PodiumSize
    ensures podium.Some? ==> |podium.value| == PodiumSize && multiset(podium.value) == multiset(board[..PodiumSize])
    ensures podium.Some? ==> podium.value[1] == board[0]
    ensures podium.Some? ==> podium.value == [board[1], board[0], board[2]]
  {
    if |board| >= PodiumSize then
      assert board[..PodiumSize] == [board[0], board[1], board[2]];
      SwapFrontPair(board[0], board[1], board[2]);
      Some([board[1], board[0], board[2]])
    else None
  }

  /** Swapping the first two of three keeps the same users. */
  lemma SwapFrontPair<T>(a: T, b: T, c: T)
    ensures multiset([b, a, c]) == multiset([a, b, c])
  {
  }
}
