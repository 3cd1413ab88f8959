/**
 * The geographic heatmap (src/components/Dashboard/GeographicHeatmap.jsx):
 * activities with a location are grouped by their coordinates rounded to two
 * decimals, each group's size picks a colour and a dot size relative to the
 * largest group, and the five largest groups are listed.
 */
module Heatmap {
  import opened Seqs
  import opened Events
  import opened StableSort
  import opened Merge

  // ---------------------------------------------------------------------------
  // Which activities are placed, and in which cell

  /** `activity.location && activity.location.latitude && activity.location.longitude`: 0 is falsy. */
  predicate IsLocated(a: Activity) {
    a.location.Some? && a.location.value.latitude != 0.0 && a.location.value.longitude != 0.0
  }

  /** The text `x.toFixed(2)`: a sign and the number of hundredths, rounded half up on |x|. */
  datatype Fixed = Fixed(negative: bool, hundredths: int)

  function Abs(x: real): real { if x < 0.0 then -x else x }

  /** The nearest integer, the larger one on a tie (the rule `toFixed` uses). */
  function RoundHalfUp(y: real): (n: int)
    ensures n as real - 0.5 <= y < n as real + 0.5
  {
    (y + 0.5).Floor
  }

  function ToFixed2(x: real): (f: Fixed)
    ensures f.negative <==> x < 0.0
    ensures f.hundredths >= 0
    ensures f.hundredths as real - 0.5 <= Abs(x) * 100.0 < f.hundredths as real + 0.5
  {
    Fixed(x < 0.0, RoundHalfUp(Abs(x) * 100.0))
  }

  /** The key `${lat.toFixed(2)},${lon.toFixed(2)}`. */
  datatype Cell = Cell(lat: Fixed, lon: Fixed)

  function CellOf(a: Activity): Cell
    requires a.location.Some?
  {
    Cell(ToFixed2(a.location.value.latitude), ToFixed2(a.location.value.longitude))
  }

  predicate InCell(a: Activity, c: Cell) {
    IsLocated(a) && CellOf(a) == c
  }

  /** The included activities that fall in cell `c`, in input order. */
  function CellMembers(s: seq<Activity>, c: Cell): seq<Activity> {
    Filter(s, (a: Activity) => InCell(a, c))
  }

  lemma {:induction false} CellMembersSnoc(s: seq<Activity>, a: Activity, c: Cell)
    ensures CellMembers(s + [a], c) == CellMembers(s, c) + (if InCell(a, c) then [a] else [])
  {
    if s == [] {
      assert [] + [a] == [a];
    } else {
      assert (s + [a])[1..] == s[1..] + [a];
      CellMembersSnoc(s[1..], a, c);
    }
  }

  lemma {:induction false} CellMembersEmpty(s: seq<Activity>, c: Cell)
    requires forall b :: b in s ==> !InCell(b, c)
    ensures CellMembers(s, c) == []
  {
    if s != [] {
      CellMembersEmpty(s[1..], c);
    }
  }

  // ---------------------------------------------------------------------------
  // Grouping (the reduce into `acc`)

  /** One value of `acc`: the first member's coordinates, the count and the members. */
  datatype LocationGroup = LocationGroup(cell: Cell, lat: real, lon: real, count: nat, members: seq<Activity>)

  function GroupCell(g: LocationGroup): Cell { g.cell }
  function GroupCount(g: LocationGroup): int { g.count }

  function NewGroup(a: Activity): LocationGroup
    requires IsLocated(a)
  {
    LocationGroup(CellOf(a), a.location.value.latitude, a.location.value.longitude, 1, [a])
  }

  /** `acc[key].count++; acc[key].activities.push(activity)` */
  function Grow(g: LocationGroup, a: Activity): LocationGroup {
    g.(count := g.count + 1, members := g.members + [a])
  }

  /** One step of the reduce; activities without a usable location were filtered out before it. */
  function AddActivity(gs: seq<LocationGroup>, a: Activity): seq<LocationGroup> {
    if !IsLocated(a) then gs
    else
      var i := FindIndex(gs, GroupCell, CellOf(a));
      if i >= 0 then gs[i := Grow(gs[i], a)] else gs + [NewGroup(a)]
  }

  /** `Object.values(locations)`: groups in the order their keys were first added. */
  function Groups(s: seq<Activity>): seq<LocationGroup> {
    if s == [] then [] else AddActivity(Groups(s[..|s| - 1]), s[|s| - 1])
  }

  /** A group is exactly the included activities of its cell, counted, and shows its first member's coordinates. */
  predicate GroupOf(g: LocationGroup, s: seq<Activity>) {
    && g.members == CellMembers(s, g.cell)
    && g.count == |g.members| >= 1
    && g.members[0].location.Some?
    && g.lat == g.members[0].location.value.latitude
    && g.lon == g.members[0].location.value.longitude
  }

  /** What `acc` holds after reading `s`. */
  predicate Summarises(gs: seq<LocationGroup>, s: seq<Activity>) {
    && UniqueBy(gs, GroupCell)
    && (forall g :: g in gs ==> GroupOf(g, s))
    && (forall a :: a in s && IsLocated(a) ==> exists g :: g in gs && g.cell == CellOf(a))
    && SumBy(gs, GroupCount) == Count(s, IsLocated)
  }

  lemma AddSkipped(gs: seq<LocationGroup>, s: seq<Activity>, a: Activity)
    requires Summarises(gs, s) && !IsLocated(a)
    ensures Summarises(AddActivity(gs, a), s + [a])
  {
    forall g | g in gs ensures GroupOf(g, s + [a]) {
      CellMembersSnoc(s, a, g.cell);
    }
    CountAppend(s, [a], IsLocated);
  }

  lemma AddToExisting(gs: seq<LocationGroup>, s: seq<Activity>, a: Activity)
    requires Summarises(gs, s) && IsLocated(a) && FindIndex(gs, GroupCell, CellOf(a)) >= 0
    ensures Summarises(AddActivity(gs, a), s + [a])
  {
    var i := FindIndex(gs, GroupCell, CellOf(a));
    var r := gs[i := Grow(gs[i], a)];
    assert AddActivity(gs, a) == r;
    assert forall j :: 0 <= j < |r| ==> r[j].cell == gs[j].cell;
    GrownGroups(gs, s, a, i);
    GrownCovers(gs, s, a, i);
    SumByUpdate(gs, i, Grow(gs[i], a), GroupCount);
    CountAppend(s, [a], IsLocated);
  }

  /** After growing the group of `a`'s cell, every group again holds exactly its cell's members. */
  lemma GrownGroups(gs: seq<LocationGroup>, s: seq<Activity>, a: Activity, i: int)
    requires Summarises(gs, s) && IsLocated(a) && i == FindIndex(gs, GroupCell, CellOf(a)) >= 0
    ensures forall g :: g in gs[i := Grow(gs[i], a)] ==> GroupOf(g, s + [a])
  {
    var r := gs[i := Grow(gs[i], a)];
    forall j | 0 <= j < |r| ensures GroupOf(r[j], s + [a]) {
      CellMembersSnoc(s, a, gs[j].cell);
      assert gs[j] in gs && GroupOf(gs[j], s);
      if j != i {
        assert gs[j].cell != CellOf(a);
      }
    }
  }

  /** After growing the group of `a`'s cell, every included activity still has a group. */
  lemma GrownCovers(gs: seq<LocationGroup>, s: seq<Activity>, a: Activity, i: int)
    requires Summarises(gs, s) && IsLocated(a) && i == FindIndex(gs, GroupCell, CellOf(a)) >= 0
    ensures forall b :: b in s + [a] && IsLocated(b) ==>
      exists g :: g in gs[i := Grow(gs[i], a)] && g.cell == CellOf(b)
  {
    var r := gs[i := Grow(gs[i], a)];
    forall b | b in s + [a] && IsLocated(b) ensures exists g :: g in r && g.cell == CellOf(b) {
      if b == a {
        assert r[i] in r;
      } else {
        assert b in s;
        var g :| g in gs && g.cell == CellOf(b);
        UpdateKeepsCell(gs, i, Grow(gs[i], a), g);
      }
    }
  }

  /** Replacing a group by one for the same cell leaves every cell represented. */
  lemma UpdateKeepsCell(gs: seq<LocationGroup>, i: int, h: LocationGroup, g: LocationGroup)
    requires 0 <= i < |gs| && h.cell == gs[i].cell && g in gs
    ensures exists g' :: g' in gs[i := h] && g'.cell == g.cell
  {
    var j :| 0 <= j < |gs| && gs[j] == g;
    assert gs[i := h][j] in gs[i := h];
  }

  lemma AddToNew(gs: seq<LocationGroup>, s: seq<Activity>, a: Activity)
    requires Summarises(gs, s) && IsLocated(a) && FindIndex(gs, GroupCell, CellOf(a)) < 0
    ensures Summarises(AddActivity(gs, a), s + [a])
  {
    var r := gs + [NewGroup(a)];
    assert AddActivity(gs, a) == r;
    assert forall g :: g in gs ==> g.cell != CellOf(a);
    UniqueBySnoc(gs, NewGroup(a), GroupCell);
    OpenedGroups(gs, s, a);
    OpenedCovers(gs, s, a);
    SumByAppend(gs, [NewGroup(a)], GroupCount);
    CountAppend(s, [a], IsLocated);
  }

  /** A new group for a fresh cell holds `a` alone, and the old groups keep their members. */
  lemma OpenedGroups(gs: seq<LocationGroup>, s: seq<Activity>, a: Activity)
    requires Summarises(gs, s) && IsLocated(a) && FindIndex(gs, GroupCell, CellOf(a)) < 0
    ensures forall g :: g in gs + [NewGroup(a)] ==> GroupOf(g, s + [a])
  {
    var c := CellOf(a);
    assert forall b :: b in s ==> !InCell(b, c);
    CellMembersEmpty(s, c);
    forall g | g in gs + [NewGroup(a)] ensures GroupOf(g, s + [a]) {
      CellMembersSnoc(s, a, g.cell);
    }
  }

  /** After opening a group for `a`'s cell, every included activity has a group. */
  lemma OpenedCovers(gs: seq<LocationGroup>, s: seq<Activity>, a: Activity)
    requires Summarises(gs, s) && IsLocated(a)
    ensures forall b :: b in s + [a] && IsLocated(b) ==>
      exists g :: g in gs + [NewGroup(a)] && g.cell == CellOf(b)
  {
    var r := gs + [NewGroup(a)];
    forall b | b in s + [a] && IsLocated(b) ensures exists g :: g in r && g.cell == CellOf(b) {
      if b == a {
        assert r[|gs|] in r;
      } else {
        assert b in s;
        var g :| g in gs && g.cell == CellOf(b);
        assert g in r;
      }
    }
  }

  lemma {:induction false} GroupsSummarise(s: seq<Activity>)
    ensures Summarises(Groups(s), s)
  {
    if s != [] {
      var init, a := s[..|s| - 1], s[|s| - 1];
      assert s == init + [a];
      GroupsSummarise(init);
      var gs := Groups(init);
      if !IsLocated(a) {
        AddSkipped(gs, init, a);
      } else if FindIndex(gs, GroupCell, CellOf(a)) >= 0 {
        AddToExisting(gs, init, a);
      } else {
        AddToNew(gs, init, a);
      }
    }
  }

  /** Two included activities share a group exactly when both rounded coordinates agree. */
  lemma SameGroupIffSameCell(s: seq<Activity>, a: Activity, b: Activity)
    requires a in s && b in s && IsLocated(a) && IsLocated(b)
    ensures (exists g :: g in Groups(s) && a in g.members && b in g.members) <==> CellOf(a) == CellOf(b)
  {
    GroupsSummarise(s);
    var gs := Groups(s);
    if CellOf(a) == CellOf(b) {
      var g :| g in gs && g.cell == CellOf(a);
      assert GroupOf(g, s);
      assert a in g.members && b in g.members;
    }
    if exists g :: g in gs && a in g.members && b in g.members {
      var g :| g in gs && a in g.members && b in g.members;
      assert GroupOf(g, s);
    }
  }

  /** Every group holds at least one activity, and the groups together hold every included activity once. */
  lemma GroupCounts(s: seq<Activity>)
    ensures forall g :: g in Groups(s) ==> g.count == |g.members| >= 1
    ensures SumBy(Groups(s), GroupCount) == Count(s, IsLocated)
  {
    GroupsSummarise(s);
  }

  /** A group shows the coordinates of the activity that created it. */
  lemma GroupShowsFirstMember(s: seq<Activity>, g: LocationGroup)
    requires g in Groups(s)
    ensures g.members != [] && g.members[0] in s && IsLocated(g.members[0])
    ensures g.lat == g.members[0].location.value.latitude
    ensures g.lon == g.members[0].location.value.longitude
    ensures forall a :: a in s && InCell(a, g.cell) ==> a in g.members
  {
    GroupsSummarise(s);
    assert GroupOf(g, s);
  }

  /** The placeholder is shown exactly when no activity has a usable location. */
  lemma NoGroupsIffNoneLocated(s: seq<Activity>)
    ensures Groups(s) == [] <==> forall a :: a in s ==> !IsLocated(a)
  {
    GroupsSummarise(s);
    if Groups(s) != [] {
      var g := Groups(s)[0];
      assert GroupOf(g, s);
      assert g.members[0] in CellMembers(s, g.cell);
    }
  }

  /** `acc` as a map from key to the position of its group. */
  predicate Indexes(index: map<Cell, nat>, groups: seq<LocationGroup>) {
    && UniqueBy(groups, GroupCell)
    && (forall c :: c in index ==> index[c] < |groups| && groups[index[c]].cell == c)
    && (forall j :: 0 <= j < |groups| ==> groups[j].cell in index)
  }

  /** Looking a key up in `acc` finds the same group as searching the groups in order. */
  lemma IndexFinds(index: map<Cell, nat>, groups: seq<LocationGroup>, c: Cell)
    requires Indexes(index, groups)
    ensures c in index ==> FindIndex(groups, GroupCell, c) == index[c]
    ensures c !in index ==> FindIndex(groups, GroupCell, c) == -1
  {
    var f := FindIndex(groups, GroupCell, c);
    if f >= 0 {
      assert groups[f].cell in index;
    }
  }

  lemma IndexesAfterGrow(index: map<Cell, nat>, groups: seq<LocationGroup>, j: nat, a: Activity)
    requires Indexes(index, groups) && j < |groups|
    ensures Indexes(index, groups[j := Grow(groups[j], a)])
  {
    var r := groups[j := Grow(groups[j], a)];
    assert forall k :: 0 <= k < |r| ==> r[k].cell == groups[k].cell;
  }

  lemma IndexesAfterNew(index: map<Cell, nat>, groups: seq<LocationGroup>, a: Activity)
    requires Indexes(index, groups) && IsLocated(a) && CellOf(a) !in index
    ensures Indexes(index[CellOf(a) := |groups|], groups + [NewGroup(a)])
  {
    var r := groups + [NewGroup(a)];
    assert forall k :: 0 <= k < |groups| ==> r[k] == groups[k];
    assert forall k :: 0 <= k < |groups| ==> groups[k].cell != CellOf(a);
  }

  /** The reduce as the loop it is, with `acc` as a key-to-position index over the groups. */
  method GroupByLocation(activities: seq<Activity>) returns (groups: seq<LocationGroup>)
    ensures groups == Groups(activities)
  {
    groups := [];
    var index: map<Cell, nat> := map[];
    var i := 0;
    while i < |activities|
      invariant 0 <= i <= |activities|
      invariant groups == Groups(activities[..i])
      invariant Indexes(index, groups)
    {
      var a := activities[i];
      assert activities[..i + 1][..i] == activities[..i];
      assert Groups(activities[..i + 1]) == AddActivity(groups, a);
      if IsLocated(a) {
        var c := CellOf(a);
        IndexFinds(index, groups, c);
        if c in index {
          var j := index[c];
          IndexesAfterGrow(index, groups, j, a);
          groups := groups[j := Grow(groups[j], a)];
        } else {
          IndexesAfterNew(index, groups, a);
          index := index[c := |groups|];
          groups := groups + [NewGroup(a)];
        }
      }
      i := i + 1;
    }
    assert activities[..i] == activities;
  }

  // ---------------------------------------------------------------------------
  // Intensity: maxCount, getLocationColor, getLocationSize

  /** `Math.max(...locationArray.map(loc => loc.count), 1)` */
  function MaxCount(gs: seq<LocationGroup>): (m: nat)
    ensures m >= 1
    ensures forall g :: g in gs ==> g.count <= m
    ensures m == 1 || exists g :: g in gs && g.count == m
  {
    if gs == [] then 1
    else
      var rest := MaxCount(gs[1..]);
      assert forall g :: g in gs ==> g == gs[0] || g in gs[1..];
      if gs[0].count >= rest then gs[0].count else rest
  }

  datatype Color = Blue | Green | Yellow | Orange | Red
  datatype DotSize = Small | Medium2 | Medium3 | Large

  function ColorRank(c: Color): nat {
    match c
    case Blue => 0
    case Green => 1
    case Yellow => 2
    case Orange => 3
    case Red => 4
  }

  function SizeRank(z: DotSize): nat {
    match z
    case Small => 0
    case Medium2 => 1
    case Medium3 => 2
    case Large => 3
  }

  /** `count / maxCount`, exact. */
  function Intensity(count: nat, maxCount: nat): real
    requires maxCount >= 1
  {
    count as real / maxCount as real
  }

  function LocationColor(count: nat, maxCount: nat): Color
    requires maxCount >= 1
  {
    var intensity := Intensity(count, maxCount);
    if intensity > 0.8 then Red
    else if intensity > 0.6 then Orange
    else if intensity > 0.4 then Yellow
    else if intensity > 0.2 then Green
    else Blue
  }

  function LocationSize(count: nat, maxCount: nat): DotSize
    requires maxCount >= 1
  {
    var intensity := Intensity(count, maxCount);
    if intensity > 0.8 then Large
    else if intensity > 0.6 then Medium3
    else if intensity > 0.4 then Medium2
    else Small
  }

  /** `count / maxCount > k / 5` is the integer comparison `5 * count > k * maxCount`. */
  lemma IntensityAbove(count: nat, maxCount: nat, k: nat)
    requires maxCount >= 1
    ensures Intensity(count, maxCount) > k as real / 5.0 <==> 5 * count > k * maxCount
  {
    var c, m := count as real, maxCount as real;
    assert c / m * m == c;
    assert (c / m > k as real / 5.0) <==> (c / m * (5.0 * m) > k as real / 5.0 * (5.0 * m));
  }

  /** The colour bands, stated on integers. */
  lemma LocationColorBands(count: nat, maxCount: nat)
    requires maxCount >= 1
    ensures LocationColor(count, maxCount) == (
      if 5 * count > 4 * maxCount then Red
      else if 5 * count > 3 * maxCount then Orange
      else if 5 * count > 2 * maxCount then Yellow
      else if 5 * count > maxCount then Green
      else Blue)
  {
    IntensityAbove(count, maxCount, 4);
    IntensityAbove(count, maxCount, 3);
    IntensityAbove(count, maxCount, 2);
    IntensityAbove(count, maxCount, 1);
  }

  lemma LocationSizeBands(count: nat, maxCount: nat)
    requires maxCount >= 1
    ensures LocationSize(count, maxCount) == (
      if 5 * count > 4 * maxCount then Large
      else if 5 * count > 3 * maxCount then Medium3
      else if 5 * count > 2 * maxCount then Medium2
      else Small)
  {
    IntensityAbove(count, maxCount, 4);
    IntensityAbove(count, maxCount, 3);
    IntensityAbove(count, maxCount, 2);
  }

  /** A larger group never gets a cooler colour or a smaller dot. */
  lemma BandsMonotone(c1: nat, c2: nat, maxCount: nat)
    requires maxCount >= 1 && c1 <= c2
    ensures ColorRank(LocationColor(c1, maxCount)) <= ColorRank(LocationColor(c2, maxCount))
    ensures SizeRank(LocationSize(c1, maxCount)) <= SizeRank(LocationSize(c2, maxCount))
  {
    LocationColorBands(c1, maxCount);
    LocationColorBands(c2, maxCount);
    LocationSizeBands(c1, maxCount);
    LocationSizeBands(c2, maxCount);
  }

  /** The largest group is always red and drawn largest. */
  lemma LargestGroupIsRed(gs: seq<LocationGroup>, g: LocationGroup)
    requires g in gs && g.count == MaxCount(gs)
    ensures LocationColor(g.count, MaxCount(gs)) == Red
    ensures LocationSize(g.count, MaxCount(gs)) == Large
  {
    LocationColorBands(g.count, MaxCount(gs));
    LocationSizeBands(g.count, MaxCount(gs));
  }

  // ---------------------------------------------------------------------------
  // The top-locations list

  method Swap(a: array<LocationGroup>, i: int, j: int)
    requires 0 <= i < a.Length && 0 <= j < a.Length
    modifies a
    ensures a[i] == old(a[j]) && a[j] == old(a[i])
    ensures forall k :: 0 <= k < a.Length && k != i && k != j ==> a[k] == old(a[k])
    ensures multiset(a[..]) == multiset(old(a[..]))
  {
    a[i], a[j] := a[j], a[i];
  }

  /**
   * One pass of insertion: moves `a[i]` left past every strictly smaller count,
   * so it ends up behind the groups it ties with.
   */
  method InsertAt(a: array<LocationGroup>, i: int)
    requires 0 <= i < a.Length && SortedDesc(a[..i], GroupCount)
    modifies a
    ensures a[..] == InsertBehindTies(old(a[i]), old(a[..i]), GroupCount) + old(a[i + 1..])
  {
    ghost var s := a[..];
    ghost var x := a[i];
    MovingStart(s, i);
    var j := i;
    while j > 0 && a[j - 1].count < a[j].count
      invariant 0 <= j <= i
      invariant a[..] == Moving(s, x, i, j)
      invariant forall q :: j <= q < i ==> s[q].count < x.count
    {
      MovingCells(s, x, i, j);
      assert s[j - 1].count < x.count;
      StepLeft(a, s, x, i, j);
      j := j - 1;
    }
    MovingCells(s, x, i, j);
    Settled(s, x, i, j);
  }

  /** One swap of the pass: `x` moves from `j` to `j - 1`. */
  method StepLeft(a: array<LocationGroup>, ghost s: seq<LocationGroup>, ghost x: LocationGroup, ghost i: int, j: int)
    requires 0 < j <= i < |s| == a.Length && a[..] == Moving(s, x, i, j)
    modifies a
    ensures a[..] == Moving(s, x, i, j - 1)
  {
    MovingCells(s, x, i, j);
    MoveLeft(s, x, i, j);
    Swap(a, j - 1, j);
    assert a[..] == Moving(s, x, i, j)[j - 1 := x][j := s[j - 1]];
  }

  /** The array midway through a pass: `x`, taken from position `i`, now sits at `j`. */
  ghost function Moving(s: seq<LocationGroup>, x: LocationGroup, i: int, j: int): seq<LocationGroup>
    requires 0 <= j <= i < |s|
  {
    s[..j] + [x] + s[j..i] + s[i + 1..]
  }

  lemma MovingStart(s: seq<LocationGroup>, i: int)
    requires 0 <= i < |s|
    ensures Moving(s, s[i], i, i) == s
  {
    assert s == s[..i] + [s[i]] + s[i + 1..];
  }

  lemma MovingCells(s: seq<LocationGroup>, x: LocationGroup, i: int, j: int)
    requires 0 <= j <= i < |s|
    ensures |Moving(s, x, i, j)| == |s|
    ensures Moving(s, x, i, j)[j] == x
    ensures j > 0 ==> Moving(s, x, i, j)[j - 1] == s[j - 1]
  {
  }

  /** Swapping `x` with its left neighbour moves it one place left. */
  lemma MoveLeft(s: seq<LocationGroup>, x: LocationGroup, i: int, j: int)
    requires 0 < j <= i < |s|
    ensures Moving(s, x, i, j)[j - 1 := x][j := s[j - 1]] == Moving(s, x, i, j - 1)
  {
    var t, u := Moving(s, x, i, j), Moving(s, x, i, j - 1);
    forall q | 0 <= q < |s| ensures t[j - 1 := x][j := s[j - 1]][q] == u[q] {
      if q > j {
        assert t[q] == u[q] == (if q <= i then s[q - 1] else s[q]);
      }
    }
  }

  /** Once `x` meets a count at least its own, the pass has inserted it behind its ties. */
  lemma Settled(s: seq<LocationGroup>, x: LocationGroup, i: int, j: int)
    requires 0 <= j <= i < |s| && SortedDesc(s[..i], GroupCount)
    requires forall q :: j <= q < i ==> s[q].count < x.count
    requires j == 0 || s[j - 1].count >= x.count
    ensures Moving(s, x, i, j) == InsertBehindTies(x, s[..i], GroupCount) + s[i + 1..]
  {
    SettledSplit(s, x, i, j);
    InsertBehindTiesAt(x, s[..i], GroupCount, j);
    PrefixSlices(s, i, j);
  }

  /** In a sorted front, the counts split at `j` around `x`'s. */
  lemma SettledSplit(s: seq<LocationGroup>, x: LocationGroup, i: int, j: int)
    requires 0 <= j <= i <= |s| && SortedDesc(s[..i], GroupCount)
    requires forall q :: j <= q < i ==> s[q].count < x.count
    requires j == 0 || s[j - 1].count >= x.count
    ensures forall q :: 0 <= q < j ==> GroupCount(s[..i][q]) >= GroupCount(x)
    ensures forall q :: j <= q < i ==> GroupCount(s[..i][q]) < GroupCount(x)
  {
    var p := s[..i];
    forall q | 0 <= q < j ensures GroupCount(p[q]) >= GroupCount(x) {
      assert GroupCount(p[q]) >= GroupCount(p[j - 1]);
    }
  }

  lemma PrefixSlices<T>(s: seq<T>, i: int, j: int)
    requires 0 <= j <= i <= |s|
    ensures s[..i][..j] == s[..j] && s[..i][j..] == s[j..i]
  {
  }

  /** `locationArray.sort((a, b) => b.count - a.count)`, in place; the result is the stable sort. */
  method SortByCount(a: array<LocationGroup>)
    modifies a
    ensures a[..] == SortDesc(old(a[..]), GroupCount)
  {
    ghost var s := a[..];
    assert s[..0] == [] && s[0..] == s;
    var i := 0;
    while i < a.Length
      invariant 0 <= i <= a.Length
      invariant a[..] == InsertionSortDesc(s[..i], GroupCount) + s[i..]
    {
      var sorted := InsertionSortDesc(s[..i], GroupCount);
      InsertionSortIsSortDesc(s[..i], GroupCount);
      SortedThenRest(sorted, s, i);
      InsertAt(a, i);
      InsertionSortSnoc(s, i, GroupCount);
      i := i + 1;
    }
    assert s[..a.Length] == s && s[a.Length..] == [];
    InsertionSortIsSortDesc(s, GroupCount);
  }

  /** The parts of a sorted front followed by the untouched rest. */
  lemma SortedThenRest(sorted: seq<LocationGroup>, s: seq<LocationGroup>, i: int)
    requires 0 <= i < |s| && |sorted| == i
    ensures (sorted + s[i..])[..i] == sorted
    ensures (sorted + s[i..])[i] == s[i]
    ensures (sorted + s[i..])[i + 1..] == s[i + 1..]
  {
  }

  /** The first `n` of a sorted permutation of `groups` are a largest-first selection of them. */
  lemma SortedPrefixIsTop(sorted: seq<LocationGroup>, groups: seq<LocationGroup>, n: nat)
    requires SortedDesc(sorted, GroupCount) && multiset(sorted) == multiset(groups)
    requires n == if |sorted| < 5 then |sorted| else 5
    ensures |sorted| == |groups|
    ensures SortedDesc(sorted[..n], GroupCount)
    ensures multiset(sorted[..n]) <= multiset(groups)
    ensures forall g :: g in sorted[..n] ==> g in groups
    ensures forall g :: g in groups && g !in sorted[..n] ==> g.count <= sorted[..n][n - 1].count
  {
    assert |multiset(sorted)| == |multiset(groups)|;
    assert sorted == sorted[..n] + sorted[n..];
    var top := sorted[..n];
    forall g | g in top ensures g in groups {
      assert g in multiset(sorted);
    }
    forall g | g in groups && g !in top ensures g.count <= top[n - 1].count {
      assert g in multiset(sorted);
      var k :| 0 <= k < |sorted| && sorted[k] == g;
      assert k >= n;
      assert GroupCount(sorted[n - 1]) >= GroupCount(sorted[k]);
    }
  }

  /** `.sort(...).slice(0, 5)`: the five largest groups, largest first, ties in first-seen order. */
  method TopLocations(activities: seq<Activity>) returns (top: seq<LocationGroup>)
    ensures top == SortDesc(Groups(activities), GroupCount)[..TopCount(Groups(activities))]
    ensures |top| == TopCount(Groups(activities))
    ensures SortedDesc(top, GroupCount)
    ensures multiset(top) <= multiset(Groups(activities))
    ensures forall g :: g in top ==> g in Groups(activities)
    ensures forall g :: g in Groups(activities) && g !in top ==> g.count <= top[|top| - 1].count
  {
    var groups := GroupByLocation(activities);
    var a := new LocationGroup[|groups|](k requires 0 <= k < |groups| => groups[k]);
    assert a[..] == groups;
    SortByCount(a);
    var n := if a.Length < 5 then a.Length else 5;
    SortedPrefixIsTop(a[..], groups, n);
    top := a[..][..n];
  }

  /** `slice(0, 5)` keeps five, or all when there are fewer. */
  function TopCount(gs: seq<LocationGroup>): (n: nat)
    ensures n <= |gs| && n <= 5
    ensures n == 5 || n == |gs|
  {
    if |gs| < 5 then |gs| else 5
  }

  /**
   * At a tie the stable sort decides: restricted to groups of one count, the list
   * shown is a prefix of the groups in first-seen order, so the tied groups that
   * make the top five are the ones seen first, listed in that order.
   */
  lemma TopTiesFirstSeen(gs: seq<LocationGroup>, p: LocationGroup -> bool)
    requires forall g, h :: p(g) && p(h) ==> g.count == h.count
    ensures Filter(SortDesc(gs, GroupCount)[..TopCount(gs)], p) <= Filter(gs, p)
  {
    SortDescStable(gs, GroupCount, p);
    FilterPrefix(SortDesc(gs, GroupCount), TopCount(gs), p);
  }
}
