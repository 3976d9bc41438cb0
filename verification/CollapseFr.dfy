/**
 Multi-stage filings of one operation collapsed into one row
 (scripts/collapse_fr_multistage.py): per target, chains of filings whose
 successive gaps stay under 24 months. Dates are day numbers.
 */
module CollapseFr {
  import opened Common

  const CLUSTER_GAP_DAYS := 730
  const PENDING_PARSE := "[pending parse]"

  datatype Deal = Deal(
    id: int, juridiction: string, targetName: string, acquirerName: string, dealType: string, announcementDate: int,
    expectedCloseDate: Option<int>, offerPrice: Option<string>, currency: Option<string>)

  datatype ClusterRow = ClusterRow(
    juridiction: string, targetName: string, acquirerName: string, dealType: string,
    earliestAnnouncementDate: int, latestEventDate: int, eventsCount: nat,
    expectedCloseDate: Option<int>, offerPrice: string, currency: string, dealIds: seq<int>)

  function Ids(deals: seq<Deal>): seq<int> {
    seq(|deals|, i requires 0 <= i < |deals| => deals[i].id)
  }

  function TextOf(s: Option<string>): string {
    if s.Some? then s.value else ""
  }

  function BestAcquirer(group: seq<Deal>, rest: seq<Deal>): string
    requires group != []
    decreases |rest|
  {
    if rest == [] then group[0].acquirerName
    else if rest[0].acquirerName != "" && rest[0].acquirerName != PENDING_PARSE then rest[0].acquirerName
    else BestAcquirer(group, rest[1..])
  }

  function LatestClose(group: seq<Deal>): Option<int> {
    if group == [] then None
    else
      var later, own := LatestClose(group[1..]), group[0].expectedCloseDate;
      if own.None? then later else if later.None? || own.value >= later.value then own else later
  }

  /** The first known price, with its currency. */
  function BestOfferPrice(group: seq<Deal>): (string, string) {
    if group == [] then ("", "")
    else if group[0].offerPrice.Some? then (group[0].offerPrice.value, TextOf(group[0].currency))
    else BestOfferPrice(group[1..])
  }

  function FinalizeCluster(group: seq<Deal>): ClusterRow
    requires group != []
  {
    var price := BestOfferPrice(group);
    ClusterRow(group[0].juridiction, group[0].targetName, BestAcquirer(group, group), group[0].dealType,
               group[0].announcementDate, group[|group| - 1].announcementDate, |group|,
               LatestClose(group), price.0, price.1, Ids(group))
  }

  function Singleton(d: Deal): ClusterRow {
    ClusterRow(d.juridiction, d.targetName, d.acquirerName, d.dealType, d.announcementDate, d.announcementDate, 1,
               d.expectedCloseDate, TextOf(d.offerPrice), TextOf(d.currency), [d.id])
  }

  // ----- grouping by target, in order of first appearance

  function Targets(deals: seq<Deal>): seq<string> {
    if deals == [] then []
    else
      var earlier, t := Targets(deals[..|deals| - 1]), deals[|deals| - 1].targetName;
      if t in earlier then earlier else earlier + [t]
  }

  function Group(deals: seq<Deal>, target: string): seq<Deal> {
    if deals == [] then []
    else
      Group(deals[..|deals| - 1], target)
      + if deals[|deals| - 1].targetName == target then [deals[|deals| - 1]] else []
  }

  // ----- the stable sort by date

  predicate Sorted(s: seq<Deal>) {
    forall i, j :: 0 <= i < j < |s| ==> s[i].announcementDate <= s[j].announcementDate
  }

  /** After every deal that is not later: equal dates keep their order. */
  function Insert(s: seq<Deal>, d: Deal): seq<Deal> {
    if s == [] || s[|s| - 1].announcementDate <= d.announcementDate then s + [d]
    else Insert(s[..|s| - 1], d) + [s[|s| - 1]]
  }

  function SortByDate(s: seq<Deal>): seq<Deal> {
    if s == [] then [] else Insert(SortByDate(s[..|s| - 1]), s[|s| - 1])
  }

  lemma {:induction false} InsertCount(s: seq<Deal>, d: Deal)
    ensures multiset(Insert(s, d)) == multiset(s) + multiset{d}
  {
    if s != [] {
      InsertCount(s[..|s| - 1], d);
      assert s == s[..|s| - 1] + [s[|s| - 1]];
    }
  }

  ghost predicate UpTo(s: seq<Deal>, date: int) {
    forall i :: 0 <= i < |s| ==> s[i].announcementDate <= date
  }

  lemma {:induction false} InsertSorted(s: seq<Deal>, d: Deal, date: int)
    requires Sorted(s) && UpTo(s, date) && d.announcementDate <= date
    ensures Sorted(Insert(s, d)) && UpTo(Insert(s, d), date)
  {
    if s != [] && s[|s| - 1].announcementDate > d.announcementDate {
      InsertSorted(s[..|s| - 1], d, s[|s| - 1].announcementDate);
    }
  }

  lemma InsertKeepsSorted(s: seq<Deal>, d: Deal)
    requires Sorted(s)
    ensures Sorted(Insert(s, d))
  {
    var last := if s == [] then d.announcementDate else s[|s| - 1].announcementDate;
    InsertSorted(s, d, if last < d.announcementDate then d.announcementDate else last);
  }

  lemma SortedNothing()
    ensures Sorted([])
  {
  }

  lemma {:induction false} SortFacts(s: seq<Deal>)
    ensures Sorted(SortByDate(s)) && multiset(SortByDate(s)) == multiset(s)
  {
    hide Insert, Sorted;
    if s == [] {
      assert Sorted([]) by { SortedNothing(); }
    } else {
      var sorted, d := SortByDate(s[..|s| - 1]), s[|s| - 1];
      SortFacts(s[..|s| - 1]);
      InsertCount(sorted, d);
      InsertKeepsSorted(sorted, d);
      assert s == s[..|s| - 1] + [d];
    }
  }

  // ----- the clusters

  /** Whether `d` continues the chain that ends a group. */
  predicate Continues(last: Deal, d: Deal) {
    d.announcementDate - last.announcementDate < CLUSTER_GAP_DAYS
  }

  function Clusters(s: seq<Deal>): (r: seq<seq<Deal>>)
    ensures r == [] <==> s == []
  {
    if s == [] then []
    else
      var earlier, d := Clusters(s[..|s| - 1]), s[|s| - 1];
      if earlier != [] && Continues(s[|s| - 2], d) then earlier[..|earlier| - 1] + [earlier[|earlier| - 1] + [d]]
      else earlier + [[d]]
  }

  function Singles(s: seq<Deal>): seq<seq<Deal>> {
    seq(|s|, i requires 0 <= i < |s| => [s[i]])
  }

  function TargetGroups(target: string, group: seq<Deal>): seq<seq<Deal>> {
    if target == PENDING_PARSE then Singles(group) else Clusters(SortByDate(group))
  }

  function GroupsFor(deals: seq<Deal>, targets: seq<string>): seq<seq<Deal>> {
    if targets == [] then []
    else
      var last := targets[|targets| - 1];
      GroupsFor(deals, targets[..|targets| - 1]) + TargetGroups(last, Group(deals, last))
  }

  /** The filings behind each output row. */
  function Groups(deals: seq<Deal>): seq<seq<Deal>> {
    GroupsFor(deals, Targets(deals))
  }

  function RowOf(group: seq<Deal>): ClusterRow
    requires group != []
  {
    if group[0].targetName == PENDING_PARSE then Singleton(group[0]) else FinalizeCluster(group)
  }

  // ----- the graph the rows are the components of

  /** Two filings of one named target less than 24 months apart. */
  predicate Adjacent(a: Deal, b: Deal) {
    && a.targetName == b.targetName && a.targetName != PENDING_PARSE
    && -730 < a.announcementDate - b.announcementDate < 730
  }

  ghost predicate IsPath(deals: seq<Deal>, path: seq<Deal>, a: Deal, b: Deal) {
    && path != [] && path[0] == a && path[|path| - 1] == b
    && (forall i :: 0 <= i < |path| ==> path[i] in deals)
    && (forall i :: 0 <= i < |path| - 1 ==> Adjacent(path[i], path[i + 1]))
  }

  ghost predicate Connected(deals: seq<Deal>, a: Deal, b: Deal) {
    exists path :: IsPath(deals, path, a, b)
  }

  function Flatten(groups: seq<seq<Deal>>): seq<Deal> {
    if groups == [] then [] else Flatten(groups[..|groups| - 1]) + groups[|groups| - 1]
  }

  // ----- one target

  /** A chain: dates that rise by small steps. */
  ghost predicate Chain(group: seq<Deal>) {
    && group != [] && Sorted(group)
    && forall i :: 0 <= i < |group| - 1 ==> group[i + 1].announcementDate - group[i].announcementDate < 730
  }

  /** Every date of the second at least the gap after every date of the first. */
  ghost predicate Apart(first: seq<Deal>, second: seq<Deal>) {
    forall i, j :: 0 <= i < |first| && 0 <= j < |second| ==>
      second[j].announcementDate - first[i].announcementDate >= 730
  }

  ghost predicate Chained(groups: seq<seq<Deal>>) {
    && (forall g :: 0 <= g < |groups| ==> Chain(groups[g]))
    && (forall g, h :: 0 <= g < h < |groups| ==> Apart(groups[g], groups[h]))
  }

  function Last(group: seq<Deal>): Deal
    requires group != []
  {
    group[|group| - 1]
  }

  lemma ClustersSnoc(front: seq<Deal>, d: Deal)
    ensures
      var earlier := Clusters(front);
      Clusters(front + [d]) ==
      if front != [] && Continues(Last(front), d) then earlier[..|earlier| - 1] + [earlier[|earlier| - 1] + [d]]
      else earlier + [[d]]
  {
    var s := front + [d];
    assert s[..|s| - 1] == front;
  }

  lemma ClustersStep(group: seq<Deal>, i: nat)
    requires i < |group|
    ensures
      var earlier := Clusters(group[..i]);
      Clusters(group[..i + 1]) ==
      if i > 0 && Continues(group[i - 1], group[i])
      then earlier[..|earlier| - 1] + [earlier[|earlier| - 1] + [group[i]]]
      else earlier + [[group[i]]]
  {
    hide Clusters;
    assert group[..i + 1] == group[..i] + [group[i]];
    ClustersSnoc(group[..i], group[i]);
  }

  lemma ClustersEnd(s: seq<Deal>)
    requires s != []
    ensures
      var groups := Clusters(s);
      groups[|groups| - 1] != [] && Last(groups[|groups| - 1]) == Last(s)
  {
  }

  lemma NoClusters()
    ensures Clusters([]) == [] && Chained([]) && Flatten([]) == []
  {
  }

  ghost predicate Good(s: seq<Deal>) {
    Chained(Clusters(s)) && Flatten(Clusters(s)) == s
  }

  lemma ContinueCase(front: seq<Deal>, d: Deal)
    requires Good(front) && front != [] && Last(front).announcementDate <= d.announcementDate
        && Continues(Last(front), d)
    ensures Good(front + [d])
  {
    hide Chained, Clusters, Flatten, Continues;
    ClustersSnoc(front, d);
    ClustersEnd(front);
    ExtendLast(Clusters(front), d);
    ExtendFlatten(Clusters(front), d);
  }

  lemma OpenCase(front: seq<Deal>, d: Deal)
    requires Good(front)
    requires front != [] ==> Last(front).announcementDate <= d.announcementDate && !Continues(Last(front), d)
    ensures Good(front + [d])
  {
    hide Chained, Clusters, Flatten, Continues;
    ClustersSnoc(front, d);
    if front != [] {
      ClustersEnd(front);
    }
    AddGroup(Clusters(front), d);
    FlattenSnoc(Clusters(front), [d]);
  }

  lemma {:induction false} ClustersChained(s: seq<Deal>)
    requires Sorted(s)
    ensures Chained(Clusters(s)) && Flatten(Clusters(s)) == s
  {
    if s == [] {
      NoClusters();
    } else {
      var front, d := s[..|s| - 1], s[|s| - 1];
      assert s == front + [d];
      ClustersChained(front);
      if front != [] && Continues(Last(front), d) {
        ContinueCase(front, d);
      } else {
        OpenCase(front, d);
      }
      hide Chained, Clusters, Flatten;
    }
  }

  lemma ChainExtended(group: seq<Deal>, d: Deal)
    requires Chain(group) && Last(group).announcementDate <= d.announcementDate && Continues(Last(group), d)
    ensures Chain(group + [d])
  {
  }

  /** What is apart from a chain is apart from anything later. */
  lemma ApartExtended(first: seq<Deal>, second: seq<Deal>, d: Deal)
    requires Apart(first, second) && second != [] && second[|second| - 1].announcementDate <= d.announcementDate
    ensures Apart(first, second + [d])
  {
  }

  lemma ExtendLast(groups: seq<seq<Deal>>, d: Deal)
    requires Chained(groups) && groups != []
    requires
      var last := groups[|groups| - 1];
      last != [] && Last(last).announcementDate <= d.announcementDate && Continues(Last(last), d)
    ensures Chained(groups[..|groups| - 1] + [groups[|groups| - 1] + [d]])
  {
    hide Chain, Apart;
    var last := groups[|groups| - 1];
    assert Chain(last);
    ChainExtended(last, d);
    forall g | 0 <= g < |groups| - 1 ensures Apart(groups[g], last + [d]) {
      ApartExtended(groups[g], last, d);
    }
  }

  lemma ExtendFlatten(groups: seq<seq<Deal>>, d: Deal)
    requires groups != []
    ensures Flatten(groups[..|groups| - 1] + [groups[|groups| - 1] + [d]]) == Flatten(groups) + [d]
  {
    hide Flatten;
    var front, last := groups[..|groups| - 1], groups[|groups| - 1];
    assert groups == front + [last];
    FlattenSnoc(front, last);
    FlattenSnoc(front, last + [d]);
    Regroup(Flatten(front), last, [d]);
  }

  lemma Regroup(a: seq<Deal>, b: seq<Deal>, c: seq<Deal>)
    ensures a + (b + c) == (a + b) + c
  {
  }

  lemma FlattenSnoc(groups: seq<seq<Deal>>, g: seq<Deal>)
    ensures Flatten(groups + [g]) == Flatten(groups) + g
  {
    assert (groups + [g])[..|groups|] == groups;
  }

  lemma ApartFromLater(group: seq<Deal>, second: seq<Deal>, d: Deal)
    requires Apart(group, second) && second != [] && second[|second| - 1].announcementDate <= d.announcementDate
    ensures Apart(group, [d])
  {
    assert forall i :: 0 <= i < |group| ==>
      second[|second| - 1].announcementDate - group[i].announcementDate >= CLUSTER_GAP_DAYS;
  }

  lemma ChainApart(group: seq<Deal>, d: Deal)
    requires Chain(group) && Last(group).announcementDate <= d.announcementDate && !Continues(Last(group), d)
    ensures Apart(group, [d])
  {
    assert forall i :: 0 <= i < |group| ==> group[i].announcementDate <= Last(group).announcementDate;
  }

  lemma AddGroup(groups: seq<seq<Deal>>, d: Deal)
    requires Chained(groups)
    requires groups != [] ==>
               var last := groups[|groups| - 1];
               last != [] && Last(last).announcementDate <= d.announcementDate && !Continues(Last(last), d)
    ensures Chained(groups + [[d]])
  {
    assert Chain([d]);
    hide Chain, Apart, Continues;
    forall g | 0 <= g < |groups| ensures Apart(groups[g], [d]) {
      var last := groups[|groups| - 1];
      assert Chain(groups[|groups| - 1]);
      if g == |groups| - 1 {
        ChainApart(last, d);
      } else {
        assert Apart(groups[g], groups[|groups| - 1]);
        ApartFromLater(groups[g], last, d);
      }
    }
  }

  lemma {:induction false} InGroup(deals: seq<Deal>, target: string, x: Deal)
    ensures x in Group(deals, target) <==> x in deals && x.targetName == target
    ensures multiset(Group(deals, target))[x] == if x.targetName == target then multiset(deals)[x] else 0
  {
    if deals != [] {
      InGroup(deals[..|deals| - 1], target, x);
      assert deals == deals[..|deals| - 1] + [deals[|deals| - 1]];
    }
  }

  lemma InSorted(s: seq<Deal>, x: Deal)
    ensures x in SortByDate(s) <==> x in s
  {
    SortFacts(s);
    assert x in SortByDate(s) <==> x in multiset(SortByDate(s));
  }

  lemma {:induction false} InFlatten(groups: seq<seq<Deal>>, x: Deal) returns (h: nat)
    requires x in Flatten(groups)
    ensures h < |groups| && x in groups[h]
  {
    if x in groups[|groups| - 1] {
      h := |groups| - 1;
    } else {
      h := InFlatten(groups[..|groups| - 1], x);
    }
  }

  lemma {:induction false} FlattenHas(groups: seq<seq<Deal>>, h: nat, x: Deal)
    requires h < |groups| && x in groups[h]
    ensures x in Flatten(groups)
  {
    if h < |groups| - 1 {
      FlattenHas(groups[..|groups| - 1], h, x);
    }
  }

  function ClustersOf(deals: seq<Deal>, t: string): seq<seq<Deal>> {
    Clusters(SortByDate(Group(deals, t)))
  }

  lemma ClustersOfFacts(deals: seq<Deal>, t: string)
    ensures Chained(ClustersOf(deals, t))
    ensures forall x :: x in Flatten(ClustersOf(deals, t)) <==> x in deals && x.targetName == t
  {
    hide Chained;
    SortFacts(Group(deals, t));
    ClustersChained(SortByDate(Group(deals, t)));
    forall x ensures x in Flatten(ClustersOf(deals, t)) <==> x in deals && x.targetName == t {
      InSorted(Group(deals, t), x);
      InGroup(deals, t, x);
    }
  }

  /** One group of one target holds filings of that target only. */
  lemma GroupOfTarget(deals: seq<Deal>, t: string, k: nat, x: Deal)
    requires k < |TargetGroups(t, Group(deals, t))| && x in TargetGroups(t, Group(deals, t))[k]
    ensures x in deals && x.targetName == t
  {
    hide Clusters, SortByDate, Chained;
    InGroup(deals, t, x);
    if t != PENDING_PARSE {
      ClustersOfFacts(deals, t);
      FlattenHas(ClustersOf(deals, t), k, x);
    }
  }

  lemma NotApart(first: seq<Deal>, second: seq<Deal>, a: Deal, b: Deal)
    requires a in first && b in second && Apart(first, second)
    ensures b.announcementDate - a.announcementDate >= CLUSTER_GAP_DAYS
  {
    var i :| 0 <= i < |first| && first[i] == a;
    var j :| 0 <= j < |second| && second[j] == b;
  }

  /** A filing next to a member of a group is in that group. */
  lemma GroupClosed(deals: seq<Deal>, t: string, k: nat, a: Deal, b: Deal)
    requires k < |TargetGroups(t, Group(deals, t))| && a in TargetGroups(t, Group(deals, t))[k]
    requires b in deals && Adjacent(a, b)
    ensures b in TargetGroups(t, Group(deals, t))[k]
  {
    hide Clusters, SortByDate, Chain, Apart;
    GroupOfTarget(deals, t, k, a);
    ClustersOfFacts(deals, t);
    var groups := ClustersOf(deals, t);
    var h := InFlatten(groups, b);
    if h < k {
      NotApart(groups[h], groups[k], b, a);
    } else if k < h {
      NotApart(groups[k], groups[h], a, b);
    }
  }

  /** The members of a group are linked through the group itself. */
  lemma GroupConnected(deals: seq<Deal>, t: string, k: nat, i: nat, j: nat)
    requires k < |TargetGroups(t, Group(deals, t))|
    requires i <= j < |TargetGroups(t, Group(deals, t))[k]|
    ensures
      var g := TargetGroups(t, Group(deals, t))[k];
      IsPath(deals, g[i..j + 1], g[i], g[j])
  {
    hide Clusters, SortByDate, Apart;
    var g := TargetGroups(t, Group(deals, t))[k];
    forall m | 0 <= m < |g| ensures g[m] in deals && g[m].targetName == t {
      GroupOfTarget(deals, t, k, g[m]);
    }
    if t != PENDING_PARSE {
      ClustersOfFacts(deals, t);
      assert Chain(g);
      ChainIsPath(deals, g, i, j);
    }
  }

  lemma ChainIsPath(deals: seq<Deal>, g: seq<Deal>, i: nat, j: nat)
    requires Chain(g) && i <= j < |g|
    requires forall m :: 0 <= m < |g| ==>
      g[m] in deals && g[m].targetName == g[0].targetName && g[m].targetName != PENDING_PARSE
    ensures IsPath(deals, g[i..j + 1], g[i], g[j])
  {
    var path := g[i..j + 1];
    forall m | 0 <= m < |path| - 1 ensures Adjacent(path[m], path[m + 1]) {
      assert path[m] == g[i + m] && path[m + 1] == g[i + m + 1];
      assert Continues(g[i + m], g[i + m + 1]);
    }
  }

  lemma {:induction false} Reversed(deals: seq<Deal>, path: seq<Deal>, a: Deal, b: Deal)
    requires IsPath(deals, path, a, b)
    ensures Connected(deals, b, a)
  {
    var back := seq(|path|, i requires 0 <= i < |path| => path[|path| - 1 - i]);
    forall i | 0 <= i < |back| - 1 ensures Adjacent(back[i], back[i + 1]) {
      assert Adjacent(path[|path| - 2 - i], path[|path| - 2 - i + 1]);
    }
    assert IsPath(deals, back, b, a);
  }

  // ----- all targets

  lemma {:induction false} GroupOrigin(deals: seq<Deal>, targets: seq<string>, g: nat) returns (t: string, k: nat)
    requires g < |GroupsFor(deals, targets)|
    ensures t in targets && k < |TargetGroups(t, Group(deals, t))|
    ensures GroupsFor(deals, targets)[g] == TargetGroups(t, Group(deals, t))[k]
  {
    var front := GroupsFor(deals, targets[..|targets| - 1]);
    if g < |front| {
      t, k := GroupOrigin(deals, targets[..|targets| - 1], g);
    } else {
      t, k := targets[|targets| - 1], g - |front|;
    }
  }

  lemma {:induction false} PathStaysInGroup(deals: seq<Deal>, t: string, k: nat, path: seq<Deal>, a: Deal, b: Deal)
    requires k < |TargetGroups(t, Group(deals, t))| && a in TargetGroups(t, Group(deals, t))[k]
    requires IsPath(deals, path, a, b)
    ensures b in TargetGroups(t, Group(deals, t))[k]
  {
    hide TargetGroups, Adjacent;
    if |path| > 1 {
      assert path[1] in deals && Adjacent(path[0], path[1]);
      GroupClosed(deals, t, k, a, path[1]);
      var rest := path[1..];
      forall i | 0 <= i < |rest| - 1 ensures Adjacent(rest[i], rest[i + 1]) {
        assert rest[i] == path[i + 1] && rest[i + 1] == path[i + 1 + 1];
      }
      assert IsPath(deals, rest, path[1], b);
      PathStaysInGroup(deals, t, k, rest, path[1], b);
    }
  }

  lemma TogetherConnected(deals: seq<Deal>, t: string, k: nat, a: Deal, b: Deal)
    requires k < |TargetGroups(t, Group(deals, t))|
    requires a in TargetGroups(t, Group(deals, t))[k] && b in TargetGroups(t, Group(deals, t))[k]
    ensures Connected(deals, a, b)
  {
    hide TargetGroups, IsPath;
    var group := TargetGroups(t, Group(deals, t))[k];
    var i :| 0 <= i < |group| && group[i] == a;
    var j :| 0 <= j < |group| && group[j] == b;
    if i <= j {
      GroupConnected(deals, t, k, i, j);
    } else {
      GroupConnected(deals, t, k, j, i);
      Reversed(deals, group[j..i + 1], b, a);
    }
  }

  /**
   The groups are the connected components: a filing is in a group with another
   exactly when a chain of filings of their target links the two with gaps under
   24 months; a filing outside the group is 24 months or more from each member.
   */
  lemma GroupsAreComponents(deals: seq<Deal>, g: nat, a: Deal, b: Deal)
    requires g < |Groups(deals)| && a in Groups(deals)[g] && b in deals
    ensures a in deals
    ensures b in Groups(deals)[g] <==> Connected(deals, a, b)
    ensures b !in Groups(deals)[g] ==> !Adjacent(a, b)
    ensures a.targetName == PENDING_PARSE ==> Groups(deals)[g] == [a]
  {
    var t, k := GroupOrigin(deals, Targets(deals), g);
    var group := TargetGroups(t, Group(deals, t))[k];
    GroupOfTarget(deals, t, k, a);
    assert t == PENDING_PARSE ==> group == [a];
    hide TargetGroups, Adjacent, IsPath;
    if Connected(deals, a, b) {
      var path :| IsPath(deals, path, a, b);
      PathStaysInGroup(deals, t, k, path, a, b);
    }
    if b in group {
      TogetherConnected(deals, t, k, a, b);
    }
    if Adjacent(a, b) {
      GroupClosed(deals, t, k, a, b);
    }
  }

  lemma {:induction false} FlattenAppend(a: seq<seq<Deal>>, b: seq<seq<Deal>>)
    ensures Flatten(a + b) == Flatten(a) + Flatten(b)
  {
    if b == [] {
      assert a + b == a;
    } else {
      var front, last := b[..|b| - 1], b[|b| - 1];
      assert a + b == (a + front) + [last] && b == front + [last];
      FlattenAppend(a, front);
      hide Flatten;
      FlattenSnoc(a + front, last);
      FlattenSnoc(front, last);
      Regroup(Flatten(a), Flatten(front), last);
    }
  }

  lemma {:induction false} FlattenSingles(s: seq<Deal>)
    ensures Flatten(Singles(s)) == s
  {
    if s != [] {
      assert Singles(s)[..|s| - 1] == Singles(s[..|s| - 1]);
      FlattenSingles(s[..|s| - 1]);
    }
  }

  lemma TargetGroupsCount(deals: seq<Deal>, t: string, x: Deal)
    ensures multiset(Flatten(TargetGroups(t, Group(deals, t))))[x] ==
            if x.targetName == t then multiset(deals)[x] else 0
  {
    var group := Group(deals, t);
    InGroup(deals, t, x);
    FlattenSingles(group);
    SortFacts(group);
    ClustersChained(SortByDate(group));
  }

  ghost predicate Distinct(targets: seq<string>) {
    forall i, j :: 0 <= i < j < |targets| ==> targets[i] != targets[j]
  }

  lemma {:induction false} GroupsCount(deals: seq<Deal>, targets: seq<string>, x: Deal)
    requires Distinct(targets)
    ensures multiset(Flatten(GroupsFor(deals, targets)))[x] == if x.targetName in targets then multiset(deals)[x] else 0
  {
    hide TargetGroups;
    if targets != [] {
      var front, t := targets[..|targets| - 1], targets[|targets| - 1];
      GroupsCount(deals, front, x);
      TargetGroupsCount(deals, t, x);
      FlattenAppend(GroupsFor(deals, front), TargetGroups(t, Group(deals, t)));
    }
  }

  lemma {:induction false} TargetsCover(deals: seq<Deal>)
    ensures Distinct(Targets(deals))
    ensures forall x :: x in deals ==> x.targetName in Targets(deals)
  {
    if deals != [] {
      TargetsCover(deals[..|deals| - 1]);
      assert forall x :: x in deals ==> x in deals[..|deals| - 1] || x == deals[|deals| - 1];
    }
  }

  /** Every filing lands in the output exactly as often as it was given. */
  lemma GroupsArePermutation(deals: seq<Deal>)
    ensures multiset(Flatten(Groups(deals))) == multiset(deals)
  {
    TargetsCover(deals);
    forall x ensures multiset(Flatten(Groups(deals)))[x] == multiset(deals)[x] {
      GroupsCount(deals, Targets(deals), x);
      assert x in multiset(deals) ==> x in deals;
    }
  }

  // ----- the rows

  function RowsOf(groups: seq<seq<Deal>>): seq<ClusterRow>
    requires forall g :: 0 <= g < |groups| ==> groups[g] != []
  {
    seq(|groups|, g requires 0 <= g < |groups| => RowOf(groups[g]))
  }

  lemma GroupNotEmpty(deals: seq<Deal>, g: nat)
    requires g < |Groups(deals)|
    ensures Groups(deals)[g] != [] && Sorted(Groups(deals)[g])
  {
    var t, k := GroupOrigin(deals, Targets(deals), g);
    hide SortByDate, Clusters;
    if t != PENDING_PARSE {
      ClustersOfFacts(deals, t);
      assert Chain(ClustersOf(deals, t)[k]);
    }
  }

  /** Ids are a primary key. */
  ghost predicate DistinctIds(deals: seq<Deal>) {
    forall i, j :: 0 <= i < j < |deals| ==> deals[i].id != deals[j].id
  }

  lemma IdOfMember(deals: seq<Deal>, group: seq<Deal>, a: Deal)
    requires DistinctIds(deals) && a in deals && forall x :: x in group ==> x in deals
    ensures a.id in Ids(group) <==> a in group
  {
    if a.id in Ids(group) {
      var i :| 0 <= i < |group| && Ids(group)[i] == a.id;
      assert group[i] in deals;
      var m :| 0 <= m < |deals| && deals[m] == group[i];
      var n :| 0 <= n < |deals| && deals[n] == a;
      assert m == n;
    }
    if a in group {
      var i :| 0 <= i < |group| && group[i] == a;
      assert Ids(group)[i] == a.id;
    }
  }

  lemma RowIds(group: seq<Deal>)
    requires group != [] && (group[0].targetName == PENDING_PARSE ==> group == [group[0]])
    ensures RowOf(group).dealIds == Ids(group) && RowOf(group).eventsCount == |group|
    ensures RowOf(group).targetName == group[0].targetName
    ensures RowOf(group).earliestAnnouncementDate == group[0].announcementDate
    ensures RowOf(group).latestEventDate == group[|group| - 1].announcementDate
  {
  }

  // ----- what a row keeps of its filings

  predicate KnownAcquirer(d: Deal) {
    d.acquirerName != "" && d.acquirerName != "[pending parse]"
  }

  /** The first acquirer that is known, and without one whatever the first filing says. */
  ghost predicate IsBestAcquirer(group: seq<Deal>, name: string)
    requires group != []
  {
    || (exists i :: 0 <= i < |group| && KnownAcquirer(group[i]) && name == group[i].acquirerName
                    && forall j :: 0 <= j < i ==> !KnownAcquirer(group[j]))
    || ((forall i :: 0 <= i < |group| ==> !KnownAcquirer(group[i])) && name == group[0].acquirerName)
  }

  /** The latest close date that is known. */
  ghost predicate IsLatestClose(group: seq<Deal>, close: Option<int>) {
    && (close.None? ==> forall i :: 0 <= i < |group| ==> group[i].expectedCloseDate.None?)
    && (close.Some? ==> exists i :: 0 <= i < |group| && group[i].expectedCloseDate == close)
    && (close.Some? ==> forall i :: 0 <= i < |group| && group[i].expectedCloseDate.Some? ==>
          group[i].expectedCloseDate.value <= close.value)
  }

  /** The first price that is known, with the currency of that filing; no price is the empty text. */
  ghost predicate IsFirstPrice(group: seq<Deal>, price: string, currency: string) {
    || (exists i :: 0 <= i < |group| && group[i].offerPrice == Some(price)
                    && currency == (if group[i].currency.Some? then group[i].currency.value else "")
                    && forall j :: 0 <= j < i ==> group[j].offerPrice.None?)
    || ((forall i :: 0 <= i < |group| ==> group[i].offerPrice.None?) && price == "")
  }

  lemma {:induction false} BestAcquirerIs(group: seq<Deal>, n: nat)
    requires group != [] && n <= |group| && forall j :: 0 <= j < n ==> !KnownAcquirer(group[j])
    ensures IsBestAcquirer(group, BestAcquirer(group, group[n..]))
    decreases |group| - n
  {
    if n < |group| {
      assert group[n..][1..] == group[n + 1..];
      if !KnownAcquirer(group[n]) {
        BestAcquirerIs(group, n + 1);
      }
    }
  }

  lemma {:induction false} LatestCloseIs(group: seq<Deal>)
    ensures IsLatestClose(group, LatestClose(group))
  {
    if group != [] {
      var rest := group[1..];
      LatestCloseIs(rest);
      var later := LatestClose(rest);
      assert forall i :: 0 < i < |group| ==> group[i] == rest[i - 1];
      if later.Some? {
        var i :| 0 <= i < |rest| && rest[i].expectedCloseDate == later;
        assert group[i + 1].expectedCloseDate == later;
      }
    }
  }

  lemma {:induction false} FirstPriceIs(group: seq<Deal>)
    ensures IsFirstPrice(group, BestOfferPrice(group).0, BestOfferPrice(group).1)
    ensures (forall i :: 0 <= i < |group| ==> group[i].offerPrice.None?) ==> BestOfferPrice(group) == ("", "")
  {
    if group != [] && group[0].offerPrice.None? {
      var rest := group[1..];
      FirstPriceIs(rest);
      assert forall i :: 0 < i < |group| ==> group[i] == rest[i - 1];
      if i :| 0 <= i < |rest| && rest[i].offerPrice == Some(BestOfferPrice(rest).0)
              && BestOfferPrice(rest).1 == (if rest[i].currency.Some? then rest[i].currency.value else "")
              && forall j :: 0 <= j < i ==> rest[j].offerPrice.None?
      {
        assert group[i + 1] == rest[i];
      }
    }
  }

  /**
   The other cells of a row: jurisdiction and kind of the first filing, the
   first known acquirer, the latest known close date and the first known price.
   */
  lemma RowKeepsBest(deals: seq<Deal>, g: nat)
    requires g < |Groups(deals)|
    ensures Groups(deals)[g] != []
    ensures
      var group := Groups(deals)[g];
      var row := RowOf(group);
      && row.juridiction == group[0].juridiction && row.dealType == group[0].dealType
      && IsBestAcquirer(group, row.acquirerName)
      && IsLatestClose(group, row.expectedCloseDate)
      && IsFirstPrice(group, row.offerPrice, row.currency)
  {
    hide Groups;
    GroupNotEmpty(deals, g);
    GroupMembers(deals, g);
    var group := Groups(deals)[g];
    assert group[0] in group;
    if group[0].targetName == PENDING_PARSE {
      SingleKeepsBest(group[0]);
    } else {
      assert group[0..] == group;
      BestAcquirerIs(group, 0);
      LatestCloseIs(group);
      FirstPriceIs(group);
      hide BestAcquirer, LatestClose, BestOfferPrice, IsBestAcquirer, IsLatestClose, IsFirstPrice;
    }
  }

  lemma SingleKeepsBest(d: Deal)
    ensures
      var row := Singleton(d);
      && IsBestAcquirer([d], row.acquirerName) && IsLatestClose([d], row.expectedCloseDate)
      && (row.offerPrice != "" || d.offerPrice.Some? ==> d.offerPrice == Some(row.offerPrice))
      && IsFirstPrice([d], row.offerPrice, row.currency)
  {
    assert [d][0] == d;
  }

  /** Targets stand in the order in which they first appear. */
  lemma {:induction false} TargetsGrow(deals: seq<Deal>, k: nat)
    requires k <= |deals|
    ensures Targets(deals[..k]) <= Targets(deals)
    ensures forall t :: t in Targets(deals) <==> exists i :: 0 <= i < |deals| && deals[i].targetName == t
  {
    if deals != [] {
      var front, last := deals[..|deals| - 1], deals[|deals| - 1];
      TargetsGrow(front, if k < |deals| then k else k - 1);
      assert forall i :: 0 <= i < |front| ==> front[i] == deals[i];
      if k < |deals| {
        assert front[..k] == deals[..k];
      } else {
        assert deals[..k] == deals;
      }
      forall t ensures t in Targets(deals) <==> exists i :: 0 <= i < |deals| && deals[i].targetName == t {
        if t in Targets(front) {
          var i :| 0 <= i < |front| && front[i].targetName == t;
          assert deals[i].targetName == t;
        }
      }
    }
  }

  /** And their rows in that order. */
  lemma {:induction false} GroupsInTargetOrder(deals: seq<Deal>, targets: seq<string>, g: nat, h: nat)
    requires g < h < |GroupsFor(deals, targets)|
    ensures exists i, j :: 0 <= i <= j < |targets|
                           && GroupsFor(deals, targets)[g] in TargetGroups(targets[i], Group(deals, targets[i]))
                           && GroupsFor(deals, targets)[h] in TargetGroups(targets[j], Group(deals, targets[j]))
  {
    hide TargetGroups, Group;
    var most, last := targets[..|targets| - 1], targets[|targets| - 1];
    var front, end := GroupsFor(deals, most), TargetGroups(last, Group(deals, last));
    assert GroupsFor(deals, targets) == front + end;
    if h < |front| {
      GroupsInTargetOrder(deals, most, g, h);
      var i, j :| 0 <= i <= j < |most| && front[g] in TargetGroups(most[i], Group(deals, most[i]))
                  && front[h] in TargetGroups(most[j], Group(deals, most[j]));
      assert targets[i] == most[i] && targets[j] == most[j];
    } else {
      assert GroupsFor(deals, targets)[h] == end[h - |front|];
      if g < |front| {
        var i := GroupIndex(deals, most, g);
        assert targets[i] == most[i] && targets[|most|] == last;
      } else {
        assert GroupsFor(deals, targets)[g] == end[g - |front|] && targets[|most|] == last;
      }
    }
  }

  lemma {:induction false} GroupIndex(deals: seq<Deal>, targets: seq<string>, g: nat) returns (i: nat)
    requires g < |GroupsFor(deals, targets)|
    ensures i < |targets| && GroupsFor(deals, targets)[g] in TargetGroups(targets[i], Group(deals, targets[i]))
  {
    hide TargetGroups, Group;
    var front := GroupsFor(deals, targets[..|targets| - 1]);
    if g < |front| {
      i := GroupIndex(deals, targets[..|targets| - 1], g);
    } else {
      i := |targets| - 1;
    }
  }

  // ----- equal dates

  function OnDay(s: seq<Deal>, date: int): seq<Deal> {
    if s == [] then [] else OnDay(s[..|s| - 1], date) + if s[|s| - 1].announcementDate == date then [s[|s| - 1]] else []
  }

  lemma OnDaySnoc(s: seq<Deal>, d: Deal, date: int)
    ensures OnDay(s + [d], date) == OnDay(s, date) + if d.announcementDate == date then [d] else []
  {
    assert (s + [d])[..|s|] == s;
  }

  lemma InsertUnfolded(s: seq<Deal>, d: Deal)
    ensures Insert(s, d) ==
            if s == [] || s[|s| - 1].announcementDate <= d.announcementDate then s + [d]
            else Insert(s[..|s| - 1], d) + [s[|s| - 1]]
  {
  }

  lemma {:induction false} InsertKeepsDays(s: seq<Deal>, d: Deal, date: int)
    ensures OnDay(Insert(s, d), date) == OnDay(s, date) + if d.announcementDate == date then [d] else []
  {
    hide Insert, OnDay;
    InsertUnfolded(s, d);
    if s == [] || s[|s| - 1].announcementDate <= d.announcementDate {
      OnDaySnoc(s, d, date);
    } else {
      var front, last := s[..|s| - 1], s[|s| - 1];
      assert s == front + [last];
      InsertKeepsDays(front, d, date);
      OnDaySnoc(Insert(front, d), last, date);
      OnDaySnoc(front, last, date);
    }
  }

  /** The sort keeps filings of one date in the order they were given. */
  lemma {:induction false} SortIsStable(s: seq<Deal>, date: int)
    ensures OnDay(SortByDate(s), date) == OnDay(s, date)
  {
    if s != [] {
      var front, d := s[..|s| - 1], s[|s| - 1];
      assert s == front + [d];
      SortIsStable(front, date);
      InsertKeepsDays(SortByDate(front), d, date);
      OnDaySnoc(front, d, date);
    }
  }

  /** A row lists the filings of its group, counts them, and spans their dates exactly. */
  lemma RowSummarisesGroup(deals: seq<Deal>, g: nat)
    requires g < |Groups(deals)|
    ensures Groups(deals)[g] != []
    ensures
      var group := Groups(deals)[g];
      var row := RowOf(group);
      && row.dealIds == Ids(group) && row.eventsCount == |group|
      && (forall x :: x in group ==> x in deals && x.targetName == row.targetName)
      && (forall x :: x in group ==> row.earliestAnnouncementDate <= x.announcementDate <= row.latestEventDate)
      && (exists x :: x in group && x.announcementDate == row.earliestAnnouncementDate)
      && (exists x :: x in group && x.announcementDate == row.latestEventDate)
  {
    hide Groups, RowOf;
    GroupNotEmpty(deals, g);
    var group := Groups(deals)[g];
    assert group[0] in group && group[|group| - 1] in group;
    GroupMembers(deals, g);
    RowIds(group);
    forall x | x in group
      ensures group[0].announcementDate <= x.announcementDate <= group[|group| - 1].announcementDate
    {
      var i :| 0 <= i < |group| && group[i] == x;
    }
  }

  lemma GroupMembers(deals: seq<Deal>, g: nat)
    requires g < |Groups(deals)| && Groups(deals)[g] != []
    ensures forall x :: x in Groups(deals)[g] ==> x in deals && x.targetName == Groups(deals)[g][0].targetName
    ensures Groups(deals)[g][0].targetName == PENDING_PARSE ==> Groups(deals)[g] == [Groups(deals)[g][0]]
  {
    var t, k := GroupOrigin(deals, Targets(deals), g);
    hide Groups;
    var group := Groups(deals)[g];
    assert group[0] in group;
    GroupOfTarget(deals, t, k, group[0]);
    forall x | x in group ensures x in deals && x.targetName == t {
      GroupOfTarget(deals, t, k, x);
    }
    hide Clusters;
  }

  /**
   Two filings share an output row exactly when a chain of filings links them;
   pending-parse filings share a row with no other.
   */
  lemma SharedRowIffConnected(deals: seq<Deal>, a: Deal, b: Deal)
    requires DistinctIds(deals) && a in deals && b in deals
    ensures
      (exists g :: 0 <= g < |Groups(deals)| && Groups(deals)[g] != []
                   && a.id in RowOf(Groups(deals)[g]).dealIds && b.id in RowOf(Groups(deals)[g]).dealIds)
      <==> Connected(deals, a, b)
  {
    hide Groups, RowOf, Connected;
    if g :| 0 <= g < |Groups(deals)| && Groups(deals)[g] != []
            && a.id in RowOf(Groups(deals)[g]).dealIds && b.id in RowOf(Groups(deals)[g]).dealIds
    {
      RowSummarisesGroup(deals, g);
      IdOfMember(deals, Groups(deals)[g], a);
      IdOfMember(deals, Groups(deals)[g], b);
      GroupsAreComponents(deals, g, a, b);
    }
    if Connected(deals, a, b) {
      GroupsArePermutation(deals);
      assert a in multiset(Flatten(Groups(deals)));
      var g := InFlatten(Groups(deals), a);
      GroupsAreComponents(deals, g, a, b);
      RowSummarisesGroup(deals, g);
      IdOfMember(deals, Groups(deals)[g], a);
      IdOfMember(deals, Groups(deals)[g], b);
    }
  }

  // ----- the loops

  /** The loop over one sorted group: `current` grows until a gap closes it. */
  method ClusterLoop(group: seq<Deal>) returns (clusters: seq<ClusterRow>)
    requires group != []
    ensures forall g :: 0 <= g < |Clusters(group)| ==> Clusters(group)[g] != []
    ensures |clusters| == |Clusters(group)| && forall g :: 0 <= g < |clusters| ==>
      clusters[g] == FinalizeCluster(Clusters(group)[g])
  {
    hide FinalizeCluster, Clusters;
    clusters := [];
    ghost var closed: seq<seq<Deal>> := [];
    var current := [group[0]];
    ClustersStep(group, 0);
    var i := 1;
    while i < |group|
      invariant 1 <= i <= |group|
      invariant closed + [current] == Clusters(group[..i])
      invariant current != [] && current[|current| - 1] == group[i - 1]
      invariant forall g :: 0 <= g < |closed| ==> closed[g] != []
      invariant |clusters| == |closed| && forall g :: 0 <= g < |closed| ==> clusters[g] == FinalizeCluster(closed[g])
    {
      var d := group[i];
      ClustersStep(group, i);
      var gap := d.announcementDate - current[|current| - 1].announcementDate;
      if gap < CLUSTER_GAP_DAYS {
        current := current + [d];
      } else {
        clusters := clusters + [FinalizeCluster(current)];
        closed := closed + [current];
        current := [d];
      }
      i := i + 1;
    }
    clusters := clusters + [FinalizeCluster(current)];
    assert group[..i] == group;
  }

  lemma RowsOfNothing(deals: seq<Deal>)
    ensures GroupsFor(deals, []) == [] && RowsOf([]) == []
  {
  }

  lemma GroupsForStep(deals: seq<Deal>, targets: seq<string>, i: nat)
    requires i < |targets|
    ensures GroupsFor(deals, targets[..i + 1]) ==
        GroupsFor(deals, targets[..i]) + TargetGroups(targets[i], Group(deals, targets[i]))
  {
    hide TargetGroups;
    assert targets[..i + 1][..i] == targets[..i];
  }

  lemma RowsAppend(a: seq<seq<Deal>>, b: seq<seq<Deal>>)
    requires forall g :: 0 <= g < |a| ==> a[g] != []
    requires forall g :: 0 <= g < |b| ==> b[g] != []
    ensures forall g :: 0 <= g < |a + b| ==> (a + b)[g] != []
    ensures RowsOf(a + b) == RowsOf(a) + RowsOf(b)
  {
    hide RowOf;
  }

  /** The whole of collapse_fr: the rows of the groups, in order. */
  method CollapseFr(deals: seq<Deal>) returns (clusters: seq<ClusterRow>)
    ensures forall g :: 0 <= g < |Groups(deals)| ==> Groups(deals)[g] != []
    ensures clusters == RowsOf(Groups(deals))
  {
    hide RowsOf, GroupsFor, TargetGroups, Group;
    clusters := [];
    RowsOfNothing(deals);
    var targets, byTarget := ByTarget(deals);
    var i := 0;
    while i < |targets|
      invariant 0 <= i <= |targets|
      invariant forall g :: 0 <= g < |GroupsFor(deals, targets[..i])| ==> GroupsFor(deals, targets[..i])[g] != []
      invariant clusters == RowsOf(GroupsFor(deals, targets[..i]))
    {
      var target := targets[i];
      GroupsForStep(deals, targets, i);
      var rows := TargetRows(deals, target, byTarget[target]);
      RowsAppend(GroupsFor(deals, targets[..i]), TargetGroups(target, Group(deals, target)));
      clusters := clusters + rows;
      i := i + 1;
    }
    assert targets[..i] == targets;
  }

  /** The filings by target, and the targets in order of first appearance. */
  method ByTarget(deals: seq<Deal>) returns (targets: seq<string>, byTarget: map<string, seq<Deal>>)
    ensures targets == Targets(deals)
    ensures forall t :: t in targets ==> t in byTarget && byTarget[t] == Group(deals, t) && byTarget[t] != []
  {
    targets, byTarget := [], map[];
    var i := 0;
    while i < |deals|
      invariant 0 <= i <= |deals|
      invariant targets == Targets(deals[..i])
      invariant forall t :: t in targets <==> t in byTarget
      invariant forall t :: t in byTarget ==> byTarget[t] != []
      invariant forall t :: Group(deals[..i], t) == if t in byTarget then byTarget[t] else []
    {
      var d := deals[i];
      assert deals[..i + 1][..i] == deals[..i];
      if d.targetName !in byTarget {
        targets := targets + [d.targetName];
      }
      byTarget := byTarget[d.targetName := (if d.targetName in byTarget then byTarget[d.targetName] else []) + [d]];
      i := i + 1;
    }
    assert deals[..i] == deals;
  }

  /** The rows of one target. */
  method TargetRows(ghost deals: seq<Deal>, target: string, group: seq<Deal>) returns (rows: seq<ClusterRow>)
    requires group == Group(deals, target) && group != []
    ensures forall g :: 0 <= g < |TargetGroups(target, group)| ==> TargetGroups(target, group)[g] != []
    ensures rows == RowsOf(TargetGroups(target, group))
  {
    hide Clusters, SortByDate, FinalizeCluster;
    if target == PENDING_PARSE {
      rows := [];
      var i := 0;
      while i < |group|
        invariant 0 <= i <= |group|
        invariant |rows| == i && forall g :: 0 <= g < i ==> rows[g] == Singleton(group[g])
      {
        rows := rows + [Singleton(group[i])];
        i := i + 1;
      }
      forall g | 0 <= g < |rows| ensures rows[g] == RowOf([group[g]]) {
        InGroup(deals, target, group[g]);
      }
    } else {
      SortFacts(group);
      assert |multiset(SortByDate(group))| == |group|;
      rows := ClusterLoop(SortByDate(group));
      forall g | 0 <= g < |rows| ensures rows[g] == RowOf(ClustersOf(deals, target)[g]) {
        assert ClustersOf(deals, target)[g][0] in ClustersOf(deals, target)[g];
        GroupOfTarget(deals, target, g, ClustersOf(deals, target)[g][0]);
      }
    }
  }
}
