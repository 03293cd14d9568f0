/**
 * The domain vocabulary of the results board (types.ts): the three closed
 * enumerations, the stored result record, the derived group score and the
 * constant tables GROUPS, EVENT_TYPES, POSITIONS and POINTS_MAP.
 *
 * A stored record keeps `group`, `eventType` and `position` as the strings
 * that were persisted: the store (browser storage or a remote document
 * collection) hands back whatever was written, so a record may carry a value
 * outside its closed set. The enumerations are mapped to and from those
 * strings by the Name and Parse functions below.
 */
module Types {
  import opened Wrappers

  datatype GroupColor = Green | Red | Blue
  datatype EventType = Athletics | Games
  datatype Position = First | Second | Third | Participated

  /** The string a group is stored and compared as. */
  function GroupName(g: GroupColor): string {
    match g
    case Green => "Green"
    case Red => "Red"
    case Blue => "Blue"
  }

  function EventTypeName(e: EventType): string {
    match e
    case Athletics => "Athletics"
    case Games => "Games"
  }

  function PositionName(p: Position): string {
    match p
    case First => "1st"
    case Second => "2nd"
    case Third => "3rd"
    case Participated => "Participated"
  }

  /** One scored entry, as it comes back from the store. */
  datatype Result = Result(
    id: string,
    studentName: string,
    regNo: string,
    group: string,
    eventName: string,
    eventType: string,
    position: string,
    points: int,
    timestamp: int)

  /** A result before the store has given it an id (`Omit<Result, 'id'>`). */
  datatype NewResult = NewResult(
    studentName: string,
    regNo: string,
    group: string,
    eventName: string,
    eventType: string,
    position: string,
    points: int,
    timestamp: int)

  /** A leaderboard row: a group and the sum of its results' points. */
  datatype GroupScore = GroupScore(group: GroupColor, totalPoints: int)

  /** The record `{ ...result, id }`: every field of `n` plus the given id. */
  function WithId(n: NewResult, id: string): Result {
    Result(id, n.studentName, n.regNo, n.group, n.eventName, n.eventType, n.position,
           n.points, n.timestamp)
  }

  const GROUPS: seq<GroupColor> := [Green, Red, Blue]
  const EVENT_TYPES: seq<EventType> := [Athletics, Games]
  const POSITIONS: seq<Position> := [First, Second, Third, Participated]

  /** The default points a position is worth (POINTS_MAP). */
  function PointsMap(p: Position): (points: int)
    ensures points >= 0
    ensures p == First <==> points == 5
    ensures p == Second <==> points == 3
    ensures p == Third <==> points == 1
    ensures p == Participated <==> points == 0
  {
    match p
    case First => 5
    case Second => 3
    case Third => 1
    case Participated => 0
  }

  /** The declared position of a group in GROUPS, the leaderboard's tie-break key. */
  function GroupIndex(g: GroupColor): (i: nat)
    ensures i < |GROUPS| && GROUPS[i] == g
  {
    match g
    case Green => 0
    case Red => 1
    case Blue => 2
  }

  /** The group a stored string names, if it names one. */
  function ParseGroup(s: string): (r: Option<GroupColor>)
    ensures r.Some? ==> GroupName(r.value) == s
    ensures r.None? ==> forall g: GroupColor :: GroupName(g) != s
  {
    if s == "Green" then Some(Green)
    else if s == "Red" then Some(Red)
    else if s == "Blue" then Some(Blue)
    else None
  }

  lemma GroupNameRoundTrip(g: GroupColor)
    ensures ParseGroup(GroupName(g)) == Some(g)
  {
  }

  lemma GroupNameInjective(g: GroupColor, h: GroupColor)
    ensures GroupName(g) == GroupName(h) <==> g == h
  {
  }

  /** GROUPS lists Green, Red, Blue once each and covers every group. */
  lemma GroupsEnumerated()
    ensures GROUPS == [Green, Red, Blue]
    ensures forall g: GroupColor :: g in GROUPS
    ensures forall i, j :: 0 <= i < j < |GROUPS| ==> GROUPS[i] != GROUPS[j]
  {
    forall g: GroupColor ensures g in GROUPS {
      assert GROUPS[GroupIndex(g)] == g;
    }
  }

  /** EVENT_TYPES is Athletics, Games and covers every event type. */
  lemma EventTypesEnumerated()
    ensures EVENT_TYPES == [Athletics, Games]
    ensures forall e: EventType :: e in EVENT_TYPES
    ensures forall i, j :: 0 <= i < j < |EVENT_TYPES| ==> EVENT_TYPES[i] != EVENT_TYPES[j]
  {
    forall e: EventType ensures e in EVENT_TYPES {
      match e
      case Athletics => assert EVENT_TYPES[0] == e;
      case Games => assert EVENT_TYPES[1] == e;
    }
  }

  /** POSITIONS lists every position exactly once. */
  lemma PositionsEnumerated()
    ensures |POSITIONS| == 4
    ensures forall p: Position :: multiset(POSITIONS)[p] == 1
  {
    var m := multiset(POSITIONS);
    assert m == multiset{First, Second, Third, Participated};
    forall p: Position ensures m[p] == 1 {
      match p
      case First => assert m == multiset{First} + multiset{Second, Third, Participated};
      case Second => assert m == multiset{Second} + multiset{First, Third, Participated};
      case Third => assert m == multiset{Third} + multiset{First, Second, Participated};
      case Participated => assert m == multiset{Participated} + multiset{First, Second, Third};
    }
  }

  /** Better positions are never worth fewer points. */
  lemma PointsNonIncreasingAlongPositions()
    ensures forall i, j :: 0 <= i < j < |POSITIONS| ==> PointsMap(POSITIONS[i]) >= PointsMap(POSITIONS[j])
  {
  }

}
