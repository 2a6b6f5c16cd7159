/**
 * The "today" panel of the lunch picker: every user's selection of the day,
 * tallied per restaurant name. The tallies form a list with one entry per
 * name; its order is not part of any contract (JavaScript would list
 * array-index names first).
 */
module TodayStats {
  import opened Restaurants

  /** One stored selection of the day. */
  datatype Lunch = Lunch(restaurantName: string, username: string, restaurant: Restaurant)

  /** The tally of one restaurant name. */
  datatype Stat = Stat(name: string, count: nat, users: seq<string>, restaurant: Restaurant)

  type Stats = seq<Stat>

  /** How many selections name `name`. */
  function CountNamed(lunches: seq<Lunch>, name: string): nat {
    if |lunches| == 0 then 0
    else CountNamed(lunches[..|lunches| - 1], name) + (if lunches[|lunches| - 1].restaurantName == name then 1 else 0)
  }

  /** The users of the selections naming `name`, in order. */
  function UsersNamed(lunches: seq<Lunch>, name: string): seq<string> {
    if |lunches| == 0 then []
    else
      var last := lunches[|lunches| - 1];
      UsersNamed(lunches[..|lunches| - 1], name) + (if last.restaurantName == name then [last.username] else [])
  }

  function SumCounts(stats: Stats): int {
    if |stats| == 0 then 0 else SumCounts(stats[..|stats| - 1]) + stats[|stats| - 1].count
  }

  predicate DistinctNames(stats: Stats) {
    forall i, j :: 0 <= i < j < |stats| ==> stats[i].name != stats[j].name
  }

  function IndexOfName(stats: Stats, name: string): (k: int)
    ensures -1 <= k < |stats|
    ensures k >= 0 ==> stats[k].name == name
    ensures k < 0 ==> forall i :: 0 <= i < |stats| ==> stats[i].name != name
  {
    if |stats| == 0 then -1
    else if stats[|stats| - 1].name == name then |stats| - 1
    else IndexOfName(stats[..|stats| - 1], name)
  }

  /** One selection: the existing tally of its name grows, or a new tally is appended. */
  function Tally(stats: Stats, lunch: Lunch): Stats {
    var k := IndexOfName(stats, lunch.restaurantName);
    if k >= 0 then
      stats[k := stats[k].(count := stats[k].count + 1, users := stats[k].users + [lunch.username])]
    else
      stats + [Stat(lunch.restaurantName, 1, [lunch.username], lunch.restaurant)]
  }

  /** Every tally counts and lists exactly the selections of its name. */
  predicate Counted(lunches: seq<Lunch>, stats: Stats) {
    forall i :: 0 <= i < |stats| ==>
      && stats[i].count == CountNamed(lunches, stats[i].name)
      && stats[i].users == UsersNamed(lunches, stats[i].name)
      && stats[i].count >= 1
  }

  /** Every selected name has a tally. */
  predicate Covers(lunches: seq<Lunch>, stats: Stats) {
    forall j :: 0 <= j < |lunches| ==> IndexOfName(stats, lunches[j].restaurantName) >= 0
  }

  /** Every tally keeps the restaurant record of the first selection of its name. */
  predicate FirstRecords(lunches: seq<Lunch>, stats: Stats) {
    forall i :: 0 <= i < |stats| ==> HasFirst(lunches, stats[i])
  }

  /** Some selection is the first to name the tally's restaurant and supplies its record. */
  predicate HasFirst(lunches: seq<Lunch>, s: Stat) {
    exists j: nat :: j < |lunches| && IsFirstNamed(lunches, j, s)
  }

  /** Selection `j` is the first to name the tally's restaurant, and supplies its record. */
  predicate IsFirstNamed(lunches: seq<Lunch>, j: nat, s: Stat) {
    && j < |lunches|
    && lunches[j].restaurantName == s.name
    && lunches[j].restaurant == s.restaurant
    && forall k :: 0 <= k < j ==> lunches[k].restaurantName != s.name
  }

  /**
   * The `todayStats` object built by the snapshot listener. Each name met
   * appears once; its count and user list are exactly the selections naming
   * it, its restaurant that of the first such selection; the counts add up to
   * the number of selections.
   */
  function Aggregate(lunches: seq<Lunch>): (stats: Stats)
    ensures DistinctNames(stats)
    ensures Counted(lunches, stats)
    ensures Covers(lunches, stats)
    ensures FirstRecords(lunches, stats)
    ensures SumCounts(stats) == |lunches|
  {
    if |lunches| == 0 then []
    else
      var prefix := lunches[..|lunches| - 1];
      var last := lunches[|lunches| - 1];
      var acc := Aggregate(prefix);
      assert lunches == prefix + [last];
      TallyDistinct(acc, last);
      TallyCounted(prefix, acc, last);
      TallyCovers(prefix, acc, last);
      TallyFirstRecords(prefix, acc, last);
      TallySum(acc, last);
      Tally(acc, last)
  }

  lemma TallyDistinct(acc: Stats, last: Lunch)
    requires DistinctNames(acc)
    ensures DistinctNames(Tally(acc, last))
  {
  }

  lemma TallySum(acc: Stats, last: Lunch)
    ensures SumCounts(Tally(acc, last)) == SumCounts(acc) + 1
  {
    var k := IndexOfName(acc, last.restaurantName);
    if k >= 0 {
      SumCountsUpdate(acc, k, Tally(acc, last)[k]);
    } else {
      assert Tally(acc, last)[..|acc|] == acc;
    }
  }

  lemma TallyCounted(prefix: seq<Lunch>, acc: Stats, last: Lunch)
    requires DistinctNames(acc)
    requires Counted(prefix, acc)
    requires Covers(prefix, acc)
    ensures Counted(prefix + [last], Tally(acc, last))
  {
    var lunches := prefix + [last];
    assert lunches[..|lunches| - 1] == prefix;
    var k := IndexOfName(acc, last.restaurantName);
    if k < 0 {
      CountAbsent(prefix, acc, last.restaurantName);
    }
  }

  lemma TallyCovers(prefix: seq<Lunch>, acc: Stats, last: Lunch)
    requires Covers(prefix, acc)
    ensures Covers(prefix + [last], Tally(acc, last))
  {
    var lunches := prefix + [last];
    var stats := Tally(acc, last);
    forall j | 0 <= j < |lunches|
      ensures IndexOfName(stats, lunches[j].restaurantName) >= 0
    {
      if j < |prefix| {
        assert lunches[j] == prefix[j];
        NameKept(acc, stats, prefix[j].restaurantName);
      } else if IndexOfName(acc, last.restaurantName) >= 0 {
        NameKept(acc, stats, last.restaurantName);
      } else {
        assert stats[|stats| - 1].name == last.restaurantName;
      }
    }
  }

  lemma TallyFirstRecords(prefix: seq<Lunch>, acc: Stats, last: Lunch)
    requires Covers(prefix, acc)
    requires FirstRecords(prefix, acc)
    ensures FirstRecords(prefix + [last], Tally(acc, last))
  {
    var lunches := prefix + [last];
    var stats := Tally(acc, last);
    assert forall k :: 0 <= k < |prefix| ==> lunches[k] == prefix[k];
    forall i | 0 <= i < |stats|
      ensures HasFirst(lunches, stats[i])
    {
      if i < |acc| {
        assert HasFirst(prefix, acc[i]);
        var j: nat :| j < |prefix| && IsFirstNamed(prefix, j, acc[i]);
        assert stats[i].name == acc[i].name && stats[i].restaurant == acc[i].restaurant;
        assert IsFirstNamed(lunches, j, stats[i]);
      } else {
        CountAbsent(prefix, acc, last.restaurantName);
        assert IsFirstNamed(lunches, |prefix|, stats[i]);
      }
    }
    assert FirstRecords(lunches, stats);
  }

  /** A name the tally does not hold has not been selected yet. */
  lemma CountAbsent(prefix: seq<Lunch>, acc: Stats, name: string)
    requires forall j :: 0 <= j < |prefix| ==> IndexOfName(acc, prefix[j].restaurantName) >= 0
    requires IndexOfName(acc, name) < 0
    ensures forall j :: 0 <= j < |prefix| ==> prefix[j].restaurantName != name
    ensures CountNamed(prefix, name) == 0 && UsersNamed(prefix, name) == []
  {
    NoneNamed(prefix, name);
  }

  lemma {:induction false} NoneNamed(lunches: seq<Lunch>, name: string)
    requires forall j :: 0 <= j < |lunches| ==> lunches[j].restaurantName != name
    ensures CountNamed(lunches, name) == 0 && UsersNamed(lunches, name) == []
  {
    if |lunches| > 0 {
      NoneNamed(lunches[..|lunches| - 1], name);
    }
  }

  /** Names already tallied stay tallied. */
  lemma NameKept(acc: Stats, stats: Stats, name: string)
    requires |acc| <= |stats|
    requires forall i :: 0 <= i < |acc| ==> stats[i].name == acc[i].name
    requires IndexOfName(acc, name) >= 0
    ensures IndexOfName(stats, name) >= 0
  {
    var k := IndexOfName(acc, name);
    assert stats[k].name == name;
  }

  lemma {:induction false} SumCountsUpdate(stats: Stats, k: nat, s: Stat)
    requires k < |stats|
    ensures SumCounts(stats[k := s]) == SumCounts(stats) - stats[k].count + s.count
    decreases |stats|
  {
    var n := |stats| - 1;
    if k < n {
      assert stats[k := s][..n] == stats[..n][k := s];
      SumCountsUpdate(stats[..n], k, s);
    } else {
      assert stats[k := s][..n] == stats[..n];
    }
  }
}
