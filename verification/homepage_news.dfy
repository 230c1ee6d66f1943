/** The homepage news block: up to three published items, those flagged for
    the homepage first, topped up with the newest other published items. */
module HomepageNews {
  import opened Values
  import opened Seqs

  /** A `news` document; `publishedDate` is a timestamp. */
  datatype NewsItem = NewsItem(id: string, status: string, showOnHomepage: bool, publishedDate: int)

  /** The number of items the block shows. */
  const Slots: nat := 3

  predicate Published(n: NewsItem) {
    n.status == "published"
  }

  /** The `where` of the first query. */
  predicate Flagged(n: NewsItem) {
    Published(n) && n.showOnHomepage
  }

  /** The `where` of the top-up query: published and not already chosen. */
  function Unchosen(chosen: set<string>): NewsItem -> bool {
    n => Published(n) && n.id !in chosen
  }

  /** Published items whose id is among `chosen` (the complement of `Unchosen`). */
  function Chosen(chosen: set<string>): NewsItem -> bool {
    n => Published(n) && n.id in chosen
  }

  predicate NewestFirst(s: seq<NewsItem>) {
    forall i, j :: 0 <= i < j < |s| ==> s[i].publishedDate >= s[j].publishedDate
  }

  predicate UniqueIds(s: seq<NewsItem>) {
    forall i, j :: 0 <= i < j < |s| ==> s[i].id != s[j].id
  }

  function Ids(s: seq<NewsItem>): set<string> {
    set i | 0 <= i < |s| :: s[i].id
  }

  /** Places `x` into a list sorted newest first. */
  function Insert(x: NewsItem, s: seq<NewsItem>): (r: seq<NewsItem>)
    requires NewestFirst(s)
    ensures NewestFirst(r)
    ensures multiset(r) == multiset(s) + multiset{x}
    ensures |r| > 0 && (r[0] == x || (|s| > 0 && r[0] == s[0]))
    decreases |s|
  {
    if |s| == 0 then [x]
    else if x.publishedDate >= s[0].publishedDate then [x] + s
    else
      var rest := Insert(x, s[1..]);
      assert s == [s[0]] + s[1..];
      [s[0]] + rest
  }

  /** `sort: '-publishedDate'` (the order among equal dates is the store's; here it is fixed). */
  function SortNewestFirst(s: seq<NewsItem>): (r: seq<NewsItem>)
    ensures NewestFirst(r)
    ensures multiset(r) == multiset(s)
    decreases |s|
  {
    if |s| == 0 then []
    else
      assert s == [s[0]] + s[1..];
      Insert(s[0], SortNewestFirst(s[1..]))
  }

  /** `payload.find({ where, sort: '-publishedDate', limit })` over the collection:
      the newest matching items, as many as the limit allows. */
  function Find(items: seq<NewsItem>, where: NewsItem -> bool, limit: nat): (r: seq<NewsItem>)
    ensures |r| == if |Filter(items, where)| < limit then |Filter(items, where)| else limit
    ensures forall i :: 0 <= i < |r| ==> where(r[i])
    ensures NewestFirst(r)
    ensures multiset(r) <= multiset(items)
    ensures forall i, y :: 0 <= i < |r| && y in Filter(items, where) && y !in r ==> y.publishedDate <= r[i].publishedDate
  {
    var matching := Filter(items, where);
    var sorted := SortNewestFirst(matching);
    TakeSorted(matching, sorted, limit);
    Take(sorted, limit)
  }

  /** The first `limit` items of a newest-first ordering of `matching`. */
  lemma TakeSorted(matching: seq<NewsItem>, sorted: seq<NewsItem>, limit: nat)
    requires NewestFirst(sorted) && multiset(sorted) == multiset(matching)
    ensures var r := Take(sorted, limit);
      && |r| == (if |matching| < limit then |matching| else limit)
      && NewestFirst(r)
      && multiset(r) <= multiset(matching)
      && (forall i :: 0 <= i < |r| ==> r[i] in matching)
      && (forall i, y :: 0 <= i < |r| && y in matching && y !in r ==> y.publishedDate <= r[i].publishedDate)
  {
    assert |sorted| == |multiset(sorted)| == |matching|;
    var r := Take(sorted, limit);
    assert sorted == r + sorted[|r|..];
    assert multiset(sorted) == multiset(r) + multiset(sorted[|r|..]);
    forall i | 0 <= i < |r| ensures r[i] in matching {
      assert r[i] in multiset(sorted);
    }
    forall i, y | 0 <= i < |r| && y in matching && y !in r ensures y.publishedDate <= r[i].publishedDate {
      assert y in multiset(sorted);
      var j :| 0 <= j < |sorted| && sorted[j] == y;
      assert j >= |r|;
    }
  }

  /** The top-up query runs only while fewer than `Slots` items are chosen, and
      asks for exactly the missing number. */
  function TopUpLimit(chosen: seq<NewsItem>): (limit: Option<nat>)
    ensures limit.Some? <==> |chosen| < Slots
    ensures limit.Some? ==> |chosen| + limit.value == Slots
  {
    if |chosen| < Slots then Some(Slots - |chosen|) else None
  }

  /** The first query: the newest flagged items. */
  function Selected(items: seq<NewsItem>): seq<NewsItem> {
    Find(items, Flagged, Slots)
  }

  /** The second query, or nothing when it does not run. */
  function TopUp(items: seq<NewsItem>): seq<NewsItem> {
    var selected := Selected(items);
    match TopUpLimit(selected)
    case None => []
    case Some(n) => Find(items, Unchosen(Ids(selected)), n)
  }

  /** The items `NewsSection` shows, in order: the flagged items newest first,
      then the top-up items newest first, never more than `Slots`, never an
      item twice, every one of them published. */
  function HomepageNews(items: seq<NewsItem>): (r: seq<NewsItem>)
    ensures |r| <= Slots
    ensures forall i :: 0 <= i < |r| ==> Published(r[i])
    ensures multiset(r) <= multiset(items)
    ensures r == Selected(items) + TopUp(items)
    ensures forall i :: 0 <= i < |Selected(items)| ==> r[i].showOnHomepage
    ensures NewestFirst(r[..|Selected(items)|]) && NewestFirst(r[|Selected(items)|..])
    ensures forall i, j :: 0 <= i < |Selected(items)| <= j < |r| ==> r[i].id != r[j].id
  {
    NewsShape(items);
    Take(Selected(items) + TopUp(items), Slots)
  }

  lemma NewsShape(items: seq<NewsItem>)
    ensures var selected := Selected(items);
      var r := selected + TopUp(items);
      && Take(r, Slots) == r
      && |r| <= Slots
      && (forall i :: 0 <= i < |r| ==> Published(r[i]))
      && multiset(r) <= multiset(items)
      && (forall i :: 0 <= i < |selected| ==> r[i].showOnHomepage)
      && NewestFirst(r[..|selected|]) && NewestFirst(r[|selected|..])
      && (forall i, j :: 0 <= i < |selected| <= j < |r| ==> r[i].id != r[j].id)
  {
    var selected := Selected(items);
    var topUp := TopUp(items);
    TopUpShape(items);
    assert forall i :: 0 <= i < |selected| ==> Flagged(selected[i]);
    ConcatShape(items, selected, topUp);
  }

  /** What the top-up query returns: few enough items to fill the block, all
      published, none already selected. */
  lemma TopUpShape(items: seq<NewsItem>)
    ensures |Selected(items)| + |TopUp(items)| <= Slots
    ensures forall i :: 0 <= i < |TopUp(items)| ==> Published(TopUp(items)[i]) && TopUp(items)[i].id !in Ids(Selected(items))
    ensures multiset(TopUp(items)) <= multiset(items)
    ensures NewestFirst(TopUp(items))
  {
    var selected := Selected(items);
    var topUp := TopUp(items);
    if |selected| < Slots {
      forall i | 0 <= i < |topUp| ensures Published(topUp[i]) && topUp[i].id !in Ids(selected) {
        assert Unchosen(Ids(selected))(topUp[i]);
      }
    }
  }

  lemma ConcatShape(items: seq<NewsItem>, selected: seq<NewsItem>, topUp: seq<NewsItem>)
    requires forall i :: 0 <= i < |selected| ==> Flagged(selected[i])
    requires NewestFirst(selected) && multiset(selected) <= multiset(items)
    requires forall i :: 0 <= i < |topUp| ==> Published(topUp[i]) && topUp[i].id !in Ids(selected)
    requires multiset(topUp) <= multiset(items)
    requires NewestFirst(topUp)
    ensures var r := selected + topUp;
      && (forall i :: 0 <= i < |r| ==> Published(r[i]))
      && multiset(r) <= multiset(items)
      && (forall i :: 0 <= i < |selected| ==> r[i].showOnHomepage)
      && NewestFirst(r[..|selected|]) && NewestFirst(r[|selected|..])
      && (forall i, j :: 0 <= i < |selected| <= j < |r| ==> r[i].id != r[j].id)
  {
    var r := selected + topUp;
    assert r[..|selected|] == selected && r[|selected|..] == topUp;
    forall i, j | 0 <= i < |selected| <= j < |r| ensures r[i].id != r[j].id {
      assert r[i] == selected[i] && r[j] == topUp[j - |selected|];
      assert r[i].id in Ids(selected);
    }
    DisjointSubMultisets(items, selected, topUp);
  }

  /** Two sub-multisets of `items` whose elements differ add up to a sub-multiset. */
  lemma DisjointSubMultisets(items: seq<NewsItem>, selected: seq<NewsItem>, topUp: seq<NewsItem>)
    requires multiset(selected) <= multiset(items) && multiset(topUp) <= multiset(items)
    requires forall i :: 0 <= i < |topUp| ==> topUp[i].id !in Ids(selected)
    ensures multiset(selected + topUp) <= multiset(items)
  {
    forall x | x in topUp ensures x !in selected {
      assert x.id !in Ids(selected);
    }
    forall x ensures multiset(selected + topUp)[x] <= multiset(items)[x] {
      if x in topUp {
        assert multiset(selected)[x] == 0;
      }
    }
  }

  /** With three or more flagged published items the top-up query never runs
      and the block shows exactly the three newest flagged ones. */
  lemma EnoughFlagged(items: seq<NewsItem>)
    requires |Filter(items, Flagged)| >= Slots
    ensures HomepageNews(items) == Find(items, Flagged, Slots)
    ensures |HomepageNews(items)| == Slots
    ensures TopUpLimit(Selected(items)).None?
  {
  }

  /** Ids of a list are never more than its length, and exactly its length when unique. */
  lemma {:induction false} IdsCount(s: seq<NewsItem>)
    ensures |Ids(s)| <= |s|
    ensures UniqueIds(s) ==> |Ids(s)| == |s|
    decreases |s|
  {
    if |s| > 0 {
      IdsCount(s[1..]);
      assert Ids(s) == {s[0].id} + Ids(s[1..]);
      if UniqueIds(s) {
        assert UniqueIds(s[1..]);
        assert s[0].id !in Ids(s[1..]);
      }
    }
  }

  /** An element repeated in a list occurs twice in its multiset, and back. */
  lemma {:induction false} RepeatedElement(s: seq<NewsItem>, x: NewsItem)
    requires multiset(s)[x] >= 2
    ensures exists a, b :: 0 <= a < b < |s| && s[a] == x && s[b] == x
    decreases |s|
  {
    assert s == [s[0]] + s[1..];
    if s[0] == x {
      assert x in multiset(s[1..]);
      var b :| 0 <= b < |s[1..]| && s[1..][b] == x;
      assert s[b + 1] == x;
    } else {
      RepeatedElement(s[1..], x);
      var a, b :| 0 <= a < b < |s[1..]| && s[1..][a] == x && s[1..][b] == x;
      assert s[a + 1] == x && s[b + 1] == x;
    }
  }

  lemma TwiceInMultiset(t: seq<NewsItem>, i: nat, j: nat)
    requires i < j < |t| && t[i] == t[j]
    ensures multiset(t)[t[i]] >= 2
  {
    assert t == t[..j] + [t[j]] + t[j + 1..];
    assert t[i] in t[..j];
  }

  /** Part of a collection with unique ids has unique ids. */
  lemma UniqueSubMultiset(s: seq<NewsItem>, t: seq<NewsItem>)
    requires UniqueIds(s) && multiset(t) <= multiset(s)
    ensures UniqueIds(t)
  {
    forall i, j | 0 <= i < j < |t| ensures t[i].id != t[j].id {
      if t[i] == t[j] {
        TwiceInMultiset(t, i, j);
        RepeatedElement(s, t[i]);
      } else {
        assert t[i] in multiset(s) && t[j] in multiset(s);
        var a :| 0 <= a < |s| && s[a] == t[i];
        var b :| 0 <= b < |s| && s[b] == t[j];
      }
    }
  }

  /** Every published item is either among the chosen ids or available for the top-up. */
  lemma {:induction false} PartitionPublished(s: seq<NewsItem>, chosen: set<string>)
    ensures |Filter(s, Unchosen(chosen))| + |Filter(s, Chosen(chosen))| == |Filter(s, Published)|
    decreases |s|
  {
    if |s| > 0 {
      PartitionPublished(s[1..], chosen);
      assert Unchosen(chosen)(s[0]) <==> Published(s[0]) && s[0].id !in chosen;
      assert Chosen(chosen)(s[0]) <==> Published(s[0]) && s[0].id in chosen;
    }
  }

  /** In a collection with unique ids, at most `|chosen|` published items carry a chosen id. */
  lemma ChosenAtMost(items: seq<NewsItem>, chosen: set<string>)
    requires UniqueIds(items)
    ensures |Filter(items, Chosen(chosen))| <= |chosen|
  {
    var f := Filter(items, Chosen(chosen));
    UniqueSubMultiset(items, f);
    IdsCount(f);
    forall k | 0 <= k < |f| ensures f[k].id in chosen {
      assert Chosen(chosen)(f[k]);
    }
    assert Ids(f) <= chosen;
    assert chosen == Ids(f) + (chosen - Ids(f));
    assert |chosen| == |Ids(f)| + |chosen - Ids(f)|;
  }

  /** With unique ids, the block never shows an item twice. */
  lemma NoDuplicates(items: seq<NewsItem>)
    requires UniqueIds(items)
    ensures UniqueIds(HomepageNews(items))
  {
    UniqueSubMultiset(items, HomepageNews(items));
  }

  /** With unique ids and at least three published items, the block is full. */
  lemma FullWhenEnoughPublished(items: seq<NewsItem>)
    requires UniqueIds(items)
    requires |Filter(items, Published)| >= Slots
    ensures |HomepageNews(items)| == Slots
  {
    var selected := Selected(items);
    if |selected| < Slots {
      var chosen := Ids(selected);
      UniqueSubMultiset(items, selected);
      IdsCount(selected);
      PartitionPublished(items, chosen);
      ChosenAtMost(items, chosen);
      assert |Filter(items, Unchosen(chosen))| >= Slots - |selected|;
    }
  }
}
