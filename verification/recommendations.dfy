/**
 * `get_recommender_system` of `services/llm/recommendations.py`: the index
 * list, optionally narrowed by the hits of a content query, grouped by theme,
 * with the groups ordered by size. The index list and the query's hits are
 * inputs.
 */
module Recommendations {
  import opened Wrappers
  import opened PyText
  import Seqs
  import StableSort
  import Tally
  import Catalogue

  type Index = Catalogue.IndexRecord

  /** One entry of `query_content`'s `results`: its `source` label (`type:id`) and its themes. */
  datatype Hit = Hit(source: string, themes: seq<string>)

  /** A group member; `themes` and `keywords` are present only with `include_metadata`. */
  datatype Item = Item(id: string, title: string, kind: string,
                       themes: Option<seq<string>>, keywords: Option<seq<string>>)

  datatype Group = Group(theme: string, items: seq<Item>, count: nat)

  datatype Recommendations =
    | Failure(error: string)
    | Recommendations(query: Option<string>, groups: seq<Group>, totalItems: nat)

  // ---------------------------------------------------------------------------
  // Narrowing by a query
  // ---------------------------------------------------------------------------

  /** `results[:5]`. */
  function Top5(hits: seq<Hit>): (r: seq<Hit>)
    ensures |r| <= 5 && |r| <= |hits| && r == hits[..|r|]
  {
    if |hits| <= 5 then hits else hits[..5]
  }

  function HitId(h: Hit): string {
    SplitLast(h.source, ":")
  }

  /** The ids named by the first five hits. */
  function RelevantIds(hits: seq<Hit>): seq<string> {
    Seqs.Map(Top5(hits), HitId)
  }

  /** The union of the themes of the first five hits. */
  function ResultThemes(hits: seq<Hit>): set<string> {
    set h, t | h in Top5(hits) && t in h.themes :: t
  }

  function IdIn(ids: seq<string>): Index -> bool {
    (idx: Index) => idx.id in ids
  }

  /** Not already relevant, and sharing a theme with the hits. */
  function SharesTheme(ids: seq<string>, themes: set<string>): Index -> bool {
    (idx: Index) => idx.id !in ids && exists t :: t in idx.themes && t in themes
  }

  /**
   * The indexes the groups are built from: all of them without a query;
   * with one, the indexes the hits name followed by those sharing a theme
   * with the hits, or all of them again when that leaves none.
   */
  function Selection(all: seq<Index>, query: Option<string>, reply: Result<seq<Hit>>): (r: Result<seq<Index>>)
    ensures (query.None? || query.value == "") ==> r == Ok(all)
    ensures r.Ok? ==> forall idx :: idx in r.value ==> idx in all
    ensures r.Ok? ==> |r.value| > 0 || |all| == 0
    ensures r.Err? <==> query.Some? && query.value != "" && reply.Err?
  {
    if query.None? || query.value == "" then Ok(all)
    else
      match reply
      case Err(e) => Err(e)
      case Ok(hits) =>
        var ids := RelevantIds(hits);
        var themes := ResultThemes(hits);
        var filtered := Seqs.Filter(all, IdIn(ids))
                      + (if themes != {} then Seqs.Filter(all, SharesTheme(ids, themes)) else []);
        if |filtered| > 0 then Ok(filtered) else Ok(all)
  }

  /**
   * With a query, an index joins the selection either because a hit names
   * it, or, when its id is not named, because it shares a theme with the
   * hits; all indexes are kept when neither applies to any.
   */
  lemma SelectionMembers(all: seq<Index>, q: string, hits: seq<Hit>, idx: Index)
    requires q != "" && idx in all
    ensures var r := Selection(all, Some(q), Ok(hits)).value;
            var ids := RelevantIds(hits);
            var themes := ResultThemes(hits);
            (idx.id in ids ==> idx in r)
            && (SharesTheme(ids, themes)(idx) ==> idx in r)
            && (idx in r && r != all ==> idx.id in ids || SharesTheme(ids, themes)(idx))
  {
    var ids := RelevantIds(hits);
    var themes := ResultThemes(hits);
    var a := Seqs.Filter(all, IdIn(ids));
    var b := if themes != {} then Seqs.Filter(all, SharesTheme(ids, themes)) else [];
    var i :| 0 <= i < |all| && all[i] == idx;
    if idx.id in ids {
      assert IdIn(ids)(all[i]);
      assert idx in a;
    }
    if SharesTheme(ids, themes)(idx) {
      assert themes != {};
      assert idx in b;
    }
    var r := Selection(all, Some(q), Ok(hits)).value;
    if idx in r && r != all {
      assert r == a + b;
      if idx in a { assert IdIn(ids)(idx); }
      else { assert idx in b; }
    }
  }

  // ---------------------------------------------------------------------------
  // Grouping
  // ---------------------------------------------------------------------------

  function ItemOf(idx: Index, includeMetadata: bool): Item {
    if includeMetadata then Item(idx.id, idx.title, idx.kind, Some(idx.themes), Some(idx.keywords))
    else Item(idx.id, idx.title, idx.kind, None, None)
  }

  /** One step of the nested loop: a theme of an index, and that index's item. */
  datatype Visit = Visit(theme: string, item: Item)

  /** The visits of the nested loop, in order. */
  function Visits(idxs: seq<Index>, includeMetadata: bool): (v: seq<Visit>)
    ensures forall p :: p in v <==> exists idx :: idx in idxs && p.theme in idx.themes && p.item == ItemOf(idx, includeMetadata)
  {
    if |idxs| == 0 then []
    else
      var item := ItemOf(idxs[0], includeMetadata);
      var here := Seqs.Map(idxs[0].themes, (t: string) => Visit(t, item));
      var rest := Visits(idxs[1..], includeMetadata);
      assert forall p :: p in here <==> p.theme in idxs[0].themes && p.item == item by {
        forall p ensures p in here <==> p.theme in idxs[0].themes && p.item == item {
          if p.theme in idxs[0].themes && p.item == item {
            var k :| 0 <= k < |idxs[0].themes| && idxs[0].themes[k] == p.theme;
            assert here[k] == p;
          }
        }
      }
      assert forall idx :: idx in idxs <==> idx == idxs[0] || idx in idxs[1..];
      here + rest
  }

  /** `theme_groups`: the group themes in insertion order and each group's items. */
  datatype ThemeGroups = ThemeGroups(keys: seq<string>, at: map<string, seq<Item>>)

  /** `theme_groups.setdefault(theme, []).append(item)`. */
  function AddToGroup(g: ThemeGroups, theme: string, item: Item): ThemeGroups {
    if theme in g.at then ThemeGroups(g.keys, g.at[theme := g.at[theme] + [item]])
    else ThemeGroups(g.keys + [theme], g.at[theme := [item]])
  }

  /** The grouping loop, applied to the visited pairs one after the other. */
  function GroupAll(visits: seq<Visit>): ThemeGroups
    decreases |visits|
  {
    if |visits| == 0 then ThemeGroups([], map[])
    else
      var last := visits[|visits| - 1];
      AddToGroup(GroupAll(visits[..|visits| - 1]), last.theme, last.item)
  }

  function Theme(p: Visit): string {
    p.theme
  }

  function Member(p: Visit): Item {
    p.item
  }

  function ThemeIs(t: string): Visit -> bool {
    (p: Visit) => p.theme == t
  }

  lemma MapSnoc<T, U>(s: seq<T>, x: T, f: T -> U)
    ensures Seqs.Map(s + [x], f) == Seqs.Map(s, f) + [f(x)]
  {
  }

  /** A theme has a group exactly when some visit carried it. */
  lemma {:induction false} GroupDomain(visits: seq<Visit>, t: string)
    ensures t in GroupAll(visits).at <==> t in Seqs.Map(visits, Theme)
    ensures t in GroupAll(visits).at <==> t in GroupAll(visits).keys
    decreases |visits|
  {
    if |visits| > 0 {
      var init := visits[..|visits| - 1];
      var last := visits[|visits| - 1];
      assert visits == init + [last];
      MapSnoc(init, last, Theme);
      GroupDomain(init, t);
    }
  }

  /** Groups appear in the order their themes were first visited. */
  lemma {:induction false} GroupKeys(visits: seq<Visit>)
    ensures GroupAll(visits).keys == Tally.Uniq(Seqs.Map(visits, Theme))
    decreases |visits|
  {
    if |visits| > 0 {
      var init := visits[..|visits| - 1];
      var last := visits[|visits| - 1];
      assert visits == init + [last];
      MapSnoc(init, last, Theme);
      var ts := Seqs.Map(visits, Theme);
      assert ts[..|ts| - 1] == Seqs.Map(init, Theme);
      GroupKeys(init);
      GroupDomain(init, last.theme);
    }
  }

  /** A group holds the items visited with its theme, in visiting order. */
  lemma {:induction false} GroupContents(visits: seq<Visit>, t: string)
    requires t in GroupAll(visits).at
    ensures GroupAll(visits).at[t] == Seqs.Map(Seqs.Filter(visits, ThemeIs(t)), Member)
    decreases |visits|
  {
    var init := visits[..|visits| - 1];
    var last := visits[|visits| - 1];
    var g := GroupAll(init);
    assert visits == init + [last];
    Seqs.FilterAppend(init, [last], ThemeIs(t));
    if t != last.theme {
      assert Seqs.Filter([last], ThemeIs(t)) == [];
      assert Seqs.Filter(init, ThemeIs(t)) + [] == Seqs.Filter(init, ThemeIs(t));
      GroupContents(init, t);
    } else {
      assert Seqs.Filter([last], ThemeIs(t)) == [last];
      MapSnoc(Seqs.Filter(init, ThemeIs(t)), last, Member);
      if t in g.at {
        GroupContents(init, t);
      } else {
        GroupDomain(init, t);
        NoneVisited(init, t);
      }
    }
  }

  lemma NoneVisited(visits: seq<Visit>, t: string)
    requires t !in Seqs.Map(visits, Theme)
    ensures Seqs.Filter(visits, ThemeIs(t)) == []
  {
  }

  function GroupOf(g: ThemeGroups, t: string): Group {
    if t in g.at then Group(t, g.at[t], |g.at[t]|) else Group(t, [], 0)
  }

  function GroupIn(g: ThemeGroups): string -> Group {
    (t: string) => GroupOf(g, t)
  }

  /** The group list in insertion order, before sorting. */
  function GroupList(g: ThemeGroups): seq<Group> {
    Seqs.Map(g.keys, GroupIn(g))
  }

  function ByCountDesc(gr: Group): seq<int> {
    [-(gr.count as int)]
  }

  /** The group list, sorted by descending count (a stable sort). */
  function SortedGroups(g: ThemeGroups): (r: seq<Group>)
    ensures forall i, j :: 0 <= i < j < |r| ==> r[i].count >= r[j].count
    ensures multiset(r) == multiset(GroupList(g))
  {
    var r := StableSort.SortBy(GroupList(g), ByCountDesc);
    forall i, j | 0 <= i < j < |r| ensures r[i].count >= r[j].count {
      StableSort.LexLeSingle(-(r[i].count as int), -(r[j].count as int));
    }
    r
  }

  /** The `recommendations` list built from the selected indexes. */
  function Grouped(selected: seq<Index>, includeMetadata: bool): seq<Group> {
    SortedGroups(GroupAll(Visits(selected, includeMetadata)))
  }

  /** `get_recommender_system(query, include_metadata)`. */
  function Recommend(all: seq<Index>, query: Option<string>, reply: Result<seq<Hit>>,
                     includeMetadata: bool): (r: Recommendations)
    ensures |all| == 0 ==> r == Failure("No cached content available for recommendations")
    ensures |all| > 0 && Selection(all, query, reply).Err? ==> r == Failure(Selection(all, query, reply).error)
    ensures r.Recommendations? ==>
              && Selection(all, query, reply).Ok?
              && r.totalItems == |Selection(all, query, reply).value| > 0
              && r.query == query
              && r.groups == Grouped(Selection(all, query, reply).value, includeMetadata)
    ensures r.Recommendations? ==> forall i, j :: 0 <= i < j < |r.groups| ==> r.groups[i].count >= r.groups[j].count
  {
    if |all| == 0 then Failure("No cached content available for recommendations")
    else
      match Selection(all, query, reply)
      case Err(e) => Failure(e)
      case Ok(selected) =>
        Recommendations(query, Grouped(selected, includeMetadata), |selected|)
  }

  /** A group's position in the unsorted list, with its theme's visits. */
  lemma GroupFound(g: ThemeGroups, gr: Group) returns (t: string)
    requires forall t :: t in g.at <==> t in g.keys
    requires gr in multiset(GroupList(g))
    ensures t in g.at && t in g.keys && gr == Group(t, g.at[t], |g.at[t]|)
  {
    var l := GroupList(g);
    var k :| 0 <= k < |l| && l[k] == gr;
    t := g.keys[k];
  }

  /**
   * An item is in the group of a theme exactly when it comes from a selected
   * index carrying that theme; every group's count is its number of items.
   */
  lemma GroupMembership(selected: seq<Index>, includeMetadata: bool, gr: Group, item: Item)
    requires gr in Grouped(selected, includeMetadata)
    ensures gr.count == |gr.items|
    ensures item in gr.items <==>
              exists idx :: idx in selected && gr.theme in idx.themes && item == ItemOf(idx, includeMetadata)
  {
    var v := Visits(selected, includeMetadata);
    var t := ListedGroup(selected, includeMetadata, gr);
    assert item in gr.items <==> Visit(t, item) in v by {
      ThemeMembers(v, t, item);
    }
    assert Visit(t, item) in v <==>
             exists idx :: idx in selected && t in idx.themes && item == ItemOf(idx, includeMetadata);
  }

  /** The members of a theme's visits are the items visited under that theme. */
  lemma ThemeMembers(v: seq<Visit>, t: string, item: Item)
    ensures item in Seqs.Map(Seqs.Filter(v, ThemeIs(t)), Member) <==> Visit(t, item) in v
  {
    var f := Seqs.Filter(v, ThemeIs(t));
    var m := Seqs.Map(f, Member);
    if item in m {
      var i :| 0 <= i < |m| && m[i] == item;
      assert f[i] in v;
      assert ThemeIs(t)(f[i]);
      assert f[i] == Visit(t, item);
    }
    if Visit(t, item) in v {
      var j :| 0 <= j < |v| && v[j] == Visit(t, item);
      assert ThemeIs(t)(v[j]);
      var i :| 0 <= i < |f| && f[i] == Visit(t, item);
      assert m[i] == item;
    }
  }

  /** A listed group is the group of its theme, holding the members of that theme's visits. */
  lemma ListedGroup(selected: seq<Index>, includeMetadata: bool, gr: Group) returns (t: string)
    requires gr in Grouped(selected, includeMetadata)
    ensures t == gr.theme && gr.count == |gr.items|
    ensures gr.items == Seqs.Map(Seqs.Filter(Visits(selected, includeMetadata), ThemeIs(t)), Member)
  {
    var v := Visits(selected, includeMetadata);
    var g := GroupAll(v);
    forall t ensures t in g.at <==> t in g.keys { GroupDomain(v, t); }
    assert gr in multiset(Grouped(selected, includeMetadata));
    t := GroupFound(g, gr);
    GroupContents(v, t);
  }

  /** A theme is visited exactly when a selected index carries it. */
  lemma ThemeVisited(selected: seq<Index>, includeMetadata: bool, t: string)
    ensures t in Seqs.Map(Visits(selected, includeMetadata), Theme)
            <==> exists idx :: idx in selected && t in idx.themes
  {
    var v := Visits(selected, includeMetadata);
    var ts := Seqs.Map(v, Theme);
    if t in ts {
      assert exists idx :: idx in selected && t in idx.themes by {
        var j :| 0 <= j < |v| && ts[j] == t;
        assert v[j] in v;
      }
    }
    if exists idx :: idx in selected && t in idx.themes {
      assert t in ts by {
        var idx :| idx in selected && t in idx.themes;
        assert Visit(t, ItemOf(idx, includeMetadata)) in v;
        var j :| 0 <= j < |v| && v[j] == Visit(t, ItemOf(idx, includeMetadata));
        assert ts[j] == t;
      }
    }
  }

  /** Sorting keeps one group per key. */
  lemma SortedThemes(g: ThemeGroups, t: string)
    ensures (exists gr :: gr in SortedGroups(g) && gr.theme == t) <==> t in g.keys
  {
    var l := GroupList(g);
    var r := SortedGroups(g);
    if exists gr :: gr in r && gr.theme == t {
      var gr :| gr in r && gr.theme == t;
      assert gr in multiset(l);
      var k :| 0 <= k < |l| && l[k] == gr;
    }
    if t in g.keys {
      var k :| 0 <= k < |g.keys| && g.keys[k] == t;
      assert l[k].theme == t;
      assert l[k] in multiset(r);
    }
  }

  /** There is a group for a theme exactly when a selected index carries it. */
  lemma GroupThemes(selected: seq<Index>, includeMetadata: bool, t: string)
    ensures (exists gr :: gr in Grouped(selected, includeMetadata) && gr.theme == t)
            <==> exists idx :: idx in selected && t in idx.themes
  {
    var v := Visits(selected, includeMetadata);
    GroupDomain(v, t);
    ThemeVisited(selected, includeMetadata, t);
    SortedThemes(GroupAll(v), t);
  }

  /**
   * Before sorting, the groups follow the distinct visited themes in order of
   * first appearance, so each theme has exactly one group.
   */
  lemma GroupOrder(selected: seq<Index>, includeMetadata: bool)
    ensures var v := Visits(selected, includeMetadata);
            var l := GroupList(GroupAll(v));
            var u := Tally.Uniq(Seqs.Map(v, Theme));
            |l| == |u| && forall i :: 0 <= i < |l| ==> l[i].theme == u[i]
  {
    GroupKeys(Visits(selected, includeMetadata));
  }

  /** Groups of equal size keep the order in which their themes first appeared. */
  lemma GroupsStable(g: ThemeGroups, count: nat)
    ensures Seqs.Filter(SortedGroups(g), StableSort.KeyIs(ByCountDesc, [-(count as int)]))
         == Seqs.Filter(GroupList(g), StableSort.KeyIs(ByCountDesc, [-(count as int)]))
  {
    StableSort.SortStable(GroupList(g), ByCountDesc, [-(count as int)]);
  }
}
