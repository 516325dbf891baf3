/** The story store (backend/app/db/repository.py) over its two tables,
    `stories` and `episodes`, kept in memory as sequences of rows in
    insertion order. The queries follow SQLite: a duplicate story id is
    refused by the primary key, ORDER BY on TEXT compares code points,
    LIMIT below zero means no limit and OFFSET below zero means zero. */
module Repository {
  import opened Common
  import opened Schemas

  /** A row of `stories`. */
  datatype StoryRow = StoryRow(id: string, topic: string, title: string, numEpisodes: int, createdAt: string)

  /** A row of `episodes`; its own autoincrement id is its position. */
  datatype EpisodeRow = EpisodeRow(storyId: string, ordinal: int, text: string, imageUrl: string, imagePrompt: string)

  /** One episode handed to save: text, image URL and the prompt, which may be None. */
  datatype NewEpisode = NewEpisode(text: string, imageUrl: string, imagePrompt: Option<string>)

  predicate HasStory(stories: seq<StoryRow>, id: string) {
    exists i :: 0 <= i < |stories| && stories[i].id == id
  }

  /** The PRIMARY KEY of `stories`. */
  predicate UniqueIds(stories: seq<StoryRow>) {
    forall i, j :: 0 <= i < j < |stories| ==> stories[i].id != stories[j].id
  }

  /** SELECT ... FROM stories WHERE id = ?, first row. */
  function FindStory(stories: seq<StoryRow>, id: string): (r: Option<StoryRow>)
    ensures r.None? <==> !HasStory(stories, id)
    ensures r.Some? ==> r.value in stories && r.value.id == id
  {
    if |stories| == 0 then None
    else if stories[0].id == id then Some(stories[0])
    else
      var r := FindStory(stories[1..], id);
      assert HasStory(stories, id) ==> HasStory(stories[1..], id) by {
        if HasStory(stories, id) {
          var i :| 0 <= i < |stories| && stories[i].id == id;
          assert stories[1..][i - 1] == stories[i];
        }
      }
      assert HasStory(stories[1..], id) ==> HasStory(stories, id) by {
        if HasStory(stories[1..], id) {
          var i :| 0 <= i < |stories[1..]| && stories[1..][i].id == id;
          assert stories[i + 1] == stories[1..][i];
        }
      }
      r
  }

  /** With unique ids, the row found is the one with that id. */
  lemma FindUnique(stories: seq<StoryRow>, k: int)
    requires UniqueIds(stories) && 0 <= k < |stories|
    ensures FindStory(stories, stories[k].id) == Some(stories[k])
  {
    var r := FindStory(stories, stories[k].id);
    var j :| 0 <= j < |stories| && stories[j] == r.value;
    assert j == k;
  }

  /** SELECT ... FROM episodes WHERE story_id = ?, in insertion order. */
  function EpisodesOf(episodes: seq<EpisodeRow>, id: string): (r: seq<EpisodeRow>)
    ensures forall k :: 0 <= k < |r| ==> r[k].storyId == id && r[k] in episodes
    ensures forall k :: 0 <= k < |episodes| && episodes[k].storyId == id ==> episodes[k] in r
  {
    if |episodes| == 0 then []
    else
      var rest := EpisodesOf(episodes[1..], id);
      assert forall k :: 1 <= k < |episodes| ==> episodes[k] == episodes[1..][k - 1];
      if episodes[0].storyId == id then [episodes[0]] + rest else rest
  }

  lemma {:induction false} EpisodesOfAppend(a: seq<EpisodeRow>, b: seq<EpisodeRow>, id: string)
    ensures EpisodesOf(a + b, id) == EpisodesOf(a, id) + EpisodesOf(b, id)
  {
    if a != [] {
      assert (a + b)[1..] == a[1..] + b;
      EpisodesOfAppend(a[1..], b, id);
    } else {
      assert a + b == b;
    }
  }

  lemma {:induction false} EpisodesOfAll(s: seq<EpisodeRow>, id: string)
    requires forall k :: 0 <= k < |s| ==> s[k].storyId == id
    ensures EpisodesOf(s, id) == s
  {
    if s != [] {
      EpisodesOfAll(s[1..], id);
    }
  }

  lemma {:induction false} EpisodesOfNone(s: seq<EpisodeRow>, id: string)
    requires forall k :: 0 <= k < |s| ==> s[k].storyId != id
    ensures EpisodesOf(s, id) == []
  {
    if s != [] {
      EpisodesOfNone(s[1..], id);
    }
  }

  // ---------------------------------------------------------------------
  // The invariant of the two tables
  // ---------------------------------------------------------------------

  /** The ordinals of a story's rows are their positions. */
  predicate Consecutive(s: seq<EpisodeRow>) {
    forall k :: 0 <= k < |s| ==> s[k].ordinal == k
  }

  /** Unique story ids; every episode belongs to a stored story; the
      episodes of each story carry the ordinals 0..n-1 in insertion order. */
  ghost predicate TablesValid(stories: seq<StoryRow>, episodes: seq<EpisodeRow>) {
    && UniqueIds(stories)
    && (forall k :: 0 <= k < |episodes| ==> HasStory(stories, episodes[k].storyId))
    && (forall id :: Consecutive(EpisodesOf(episodes, id)))
  }

  /** The rows save inserts for the given episodes, ordinal i for the i-th. */
  function EpisodeRows(storyId: string, eps: seq<NewEpisode>): (r: seq<EpisodeRow>)
    ensures |r| == |eps|
    ensures forall k :: 0 <= k < |r| ==>
      r[k] == EpisodeRow(storyId, k, eps[k].text, eps[k].imageUrl, eps[k].imagePrompt.GetOr(""))
  {
    if eps == [] then []
    else
      var n := |eps| - 1;
      EpisodeRows(storyId, eps[..n]) + [EpisodeRow(storyId, n, eps[n].text, eps[n].imageUrl, eps[n].imagePrompt.GetOr(""))]
  }

  /** The rows of one more episode are the rows so far and one more row. */
  lemma EpisodeRowsSnoc(storyId: string, eps: seq<NewEpisode>, i: nat)
    requires i < |eps|
    ensures EpisodeRows(storyId, eps[..i + 1])
      == EpisodeRows(storyId, eps[..i]) + [EpisodeRow(storyId, i, eps[i].text, eps[i].imageUrl, eps[i].imagePrompt.GetOr(""))]
  {
    assert eps[..i + 1][..i] == eps[..i];
  }

  /** Saving a story with a new id keeps the tables valid. */
  lemma SaveKeepsValid(stories: seq<StoryRow>, episodes: seq<EpisodeRow>, row: StoryRow, eps: seq<NewEpisode>)
    requires TablesValid(stories, episodes) && !HasStory(stories, row.id)
    ensures TablesValid(stories + [row], episodes + EpisodeRows(row.id, eps))
  {
    var ss := stories + [row];
    var rows := EpisodeRows(row.id, eps);
    var es := episodes + rows;
    assert UniqueIds(ss);
    SaveKeepsOwners(stories, episodes, row, rows);
    forall id ensures Consecutive(EpisodesOf(es, id)) {
      SaveKeepsOrdinals(episodes, rows, row.id, eps, id);
    }
  }

  /** Every episode, old or new, still belongs to a stored story. */
  lemma SaveKeepsOwners(stories: seq<StoryRow>, episodes: seq<EpisodeRow>, row: StoryRow, rows: seq<EpisodeRow>)
    requires forall k :: 0 <= k < |episodes| ==> HasStory(stories, episodes[k].storyId)
    requires forall k :: 0 <= k < |rows| ==> rows[k].storyId == row.id
    ensures var ss := stories + [row]; var es := episodes + rows;
      forall k :: 0 <= k < |es| ==> HasStory(ss, es[k].storyId)
  {
    var ss := stories + [row];
    var es := episodes + rows;
    forall k | 0 <= k < |es| ensures HasStory(ss, es[k].storyId) {
      if k < |episodes| {
        assert es[k] == episodes[k];
        var i :| 0 <= i < |stories| && stories[i].id == episodes[k].storyId;
        assert ss[i] == stories[i];
      } else {
        assert es[k] == rows[k - |episodes|];
        assert ss[|stories|].id == row.id;
      }
    }
  }

  /** The episodes of each story keep consecutive ordinals after a save. */
  lemma SaveKeepsOrdinals(episodes: seq<EpisodeRow>, rows: seq<EpisodeRow>, newId: string, eps: seq<NewEpisode>, id: string)
    requires rows == EpisodeRows(newId, eps)
    requires forall k :: 0 <= k < |episodes| ==> episodes[k].storyId != newId
    requires Consecutive(EpisodesOf(episodes, id))
    ensures Consecutive(EpisodesOf(episodes + rows, id))
  {
    EpisodesOfAppend(episodes, rows, id);
    if id == newId {
      EpisodesOfNone(episodes, id);
      EpisodesOfAll(rows, id);
    } else {
      EpisodesOfNone(rows, id);
      assert EpisodesOf(episodes + rows, id) == EpisodesOf(episodes, id);
    }
  }

  // ---------------------------------------------------------------------
  // get_story
  // ---------------------------------------------------------------------

  predicate OrdinalLe(a: EpisodeRow, b: EpisodeRow) { a.ordinal <= b.ordinal }

  lemma OrdinalLeTotalPreorder()
    ensures TotalPreorder(OrdinalLe)
  {
  }

  /** ... WHERE story_id = ? ORDER BY ordinal. */
  function OrderedEpisodes(episodes: seq<EpisodeRow>, id: string): (s: seq<EpisodeRow>)
    ensures SortedBy(s, OrdinalLe)
    ensures multiset(s) == multiset(EpisodesOf(episodes, id))
  {
    OrdinalLeTotalPreorder();
    SortBySorted(EpisodesOf(episodes, id), OrdinalLe);
    SortBy(EpisodesOf(episodes, id), OrdinalLe)
  }

  /** The text and image URL of each row, the only fields returned. */
  function Outs(s: seq<EpisodeRow>): seq<EpisodeOut> {
    seq(|s|, k requires 0 <= k < |s| => EpisodeOut(s[k].text, s[k].imageUrl))
  }

  /** The story row a response is made from. */
  function RowOfStory(r: GetStoryResponse): StoryRow {
    StoryRow(r.storyId, r.topic, r.title, r.numEpisodes, r.createdAt)
  }

  /** get_story: None for an unknown id, otherwise the stored row and its
      episodes sorted by ordinal. */
  function QueryStory(stories: seq<StoryRow>, episodes: seq<EpisodeRow>, id: string): (r: Option<GetStoryResponse>)
    ensures r.None? <==> !HasStory(stories, id)
    ensures r.Some? ==> r.value.storyId == id && RowOfStory(r.value) in stories
    ensures r.Some? ==> r.value.episodes == Outs(OrderedEpisodes(episodes, id))
  {
    match FindStory(stories, id)
    case None => None
    case Some(row) =>
      Some(GetStoryResponse(row.id, row.topic, row.title, row.numEpisodes, row.createdAt,
                            Outs(OrderedEpisodes(episodes, id))))
  }

  /** The text and image URL of each episode handed to save. */
  function SavedOuts(eps: seq<NewEpisode>): seq<EpisodeOut> {
    seq(|eps|, k requires 0 <= k < |eps| => EpisodeOut(eps[k].text, eps[k].imageUrl))
  }

  /** After a save under a new id, the episodes of that id are exactly
      the rows inserted, already in ordinal order. */
  lemma SavedEpisodes(stories: seq<StoryRow>, episodes: seq<EpisodeRow>, id: string, eps: seq<NewEpisode>)
    requires forall k :: 0 <= k < |episodes| ==> HasStory(stories, episodes[k].storyId)
    requires !HasStory(stories, id)
    ensures OrderedEpisodes(episodes + EpisodeRows(id, eps), id) == EpisodeRows(id, eps)
  {
    var rows := EpisodeRows(id, eps);
    EpisodesOfAppend(episodes, rows, id);
    EpisodesOfNone(episodes, id);
    EpisodesOfAll(rows, id);
    assert EpisodesOf(episodes + rows, id) == rows;
    SortByIdentity(rows, OrdinalLe);
  }

  /** Reading a story back right after saving it gives its topic, title,
      count and creation time, and its episodes' text and image URL in the
      order they were given. */
  lemma SaveThenGet(stories: seq<StoryRow>, episodes: seq<EpisodeRow>, row: StoryRow, eps: seq<NewEpisode>)
    requires TablesValid(stories, episodes) && !HasStory(stories, row.id)
    ensures QueryStory(stories + [row], episodes + EpisodeRows(row.id, eps), row.id)
      == Some(GetStoryResponse(row.id, row.topic, row.title, row.numEpisodes, row.createdAt, SavedOuts(eps)))
  {
    var ss := stories + [row];
    assert UniqueIds(ss);
    FindUnique(ss, |stories|);
    SavedEpisodes(stories, episodes, row.id, eps);
    OutsOfRows(row.id, eps);
  }

  /** The rows saved for some episodes give back their text and image URL. */
  lemma OutsOfRows(id: string, eps: seq<NewEpisode>)
    ensures Outs(EpisodeRows(id, eps)) == SavedOuts(eps)
  {
    var rows := EpisodeRows(id, eps);
    assert forall k :: 0 <= k < |eps| ==> Outs(rows)[k] == SavedOuts(eps)[k];
  }

  /** In a valid store the k-th episode get_story returns is the row of
      that story with ordinal k. */
  lemma StoredOrder(stories: seq<StoryRow>, episodes: seq<EpisodeRow>, id: string)
    requires TablesValid(stories, episodes) && HasStory(stories, id)
    ensures var rows := EpisodesOf(episodes, id);
      var got := QueryStory(stories, episodes, id).value.episodes;
      && |got| == |rows|
      && forall k :: 0 <= k < |rows| ==> rows[k].ordinal == k && got[k] == EpisodeOut(rows[k].text, rows[k].imageUrl)
  {
    var rows := EpisodesOf(episodes, id);
    assert Consecutive(rows);
    assert SortedBy(rows, OrdinalLe);
    SortByIdentity(rows, OrdinalLe);
  }

  // ---------------------------------------------------------------------
  // list_stories
  // ---------------------------------------------------------------------

  /** The first row of a sorted sequence has the smallest ordinal. */
  lemma SortedHeadSmallest(s: seq<EpisodeRow>, all: seq<EpisodeRow>)
    requires SortedBy(s, OrdinalLe) && multiset(s) == multiset(all) && |s| > 0
    ensures s[0] in all
    ensures forall e :: e in all ==> s[0].ordinal <= e.ordinal
  {
    assert s[0] in multiset(s);
    forall e | e in all ensures s[0].ordinal <= e.ordinal {
      assert e in multiset(all);
      var j :| 0 <= j < |s| && s[j] == e;
    }
  }

  /** Some episode of the story with the lowest ordinal has this image URL. */
  predicate LowestHasImage(episodes: seq<EpisodeRow>, id: string, url: string) {
    exists e :: e in EpisodesOf(episodes, id) && e.imageUrl == url &&
      forall e2 :: e2 in EpisodesOf(episodes, id) ==> e.ordinal <= e2.ordinal
  }

  /** The preview of the list: the image URL of the lowest-ordinal episode,
      None when there is no episode or that URL is "". */
  function FirstImage(episodes: seq<EpisodeRow>, id: string): (r: Option<string>)
    ensures EpisodesOf(episodes, id) == [] ==> r.None?
    ensures r.Some? ==> r.value != "" && LowestHasImage(episodes, id, r.value)
    ensures r.None? && EpisodesOf(episodes, id) != [] ==> LowestHasImage(episodes, id, "")
  {
    var s := OrderedEpisodes(episodes, id);
    if |s| == 0 then
      assert |EpisodesOf(episodes, id)| == 0 by { assert |multiset(EpisodesOf(episodes, id))| == 0; }
      None
    else
      SortedHeadSmallest(s, EpisodesOf(episodes, id));
      if s[0].imageUrl == "" then None else Some(s[0].imageUrl)
  }

  /** created_at DESC: `a` may come before `b` when it is not older. */
  predicate NewerFirst(a: StoryRow, b: StoryRow) { LexLe(b.createdAt, a.createdAt) }

  lemma NewerFirstTotalPreorder()
    ensures TotalPreorder(NewerFirst)
  {
    forall a: StoryRow, b: StoryRow ensures NewerFirst(a, b) || NewerFirst(b, a) {
      LexLeTotal(a.createdAt, b.createdAt);
    }
    forall a: StoryRow, b: StoryRow, c: StoryRow | NewerFirst(a, b) && NewerFirst(b, c)
      ensures NewerFirst(a, c)
    {
      LexLeTransitive(c.createdAt, b.createdAt, a.createdAt);
    }
  }

  /** Where OFFSET starts: at zero when negative, at the end at most. */
  function PageStart(len: nat, offset: int): (s: nat)
    ensures s <= len
  {
    if offset <= 0 then 0 else if offset < len then offset else len
  }

  /** LIMIT limit OFFSET offset. */
  function Page<T>(xs: seq<T>, limit: int, offset: int): (r: seq<T>)
    ensures var s := PageStart(|xs|, offset);
      && s + |r| <= |xs| && r == xs[s..s + |r|]
      && |r| == if limit < 0 || limit > |xs| - s then |xs| - s else limit
  {
    var rest := xs[PageStart(|xs|, offset)..];
    if limit < 0 || limit > |rest| then rest else rest[..limit]
  }

  /** The list item of one story row. */
  function ListItem(row: StoryRow, episodes: seq<EpisodeRow>): StoryListItem {
    StoryListItem(row.id, row.topic, row.title, row.numEpisodes, row.createdAt, FirstImage(episodes, row.id))
  }

  /** The story row a list item is made from. */
  function RowOfItem(item: StoryListItem): StoryRow {
    StoryRow(item.storyId, item.topic, item.title, item.numEpisodes, item.createdAt)
  }

  /** All stories, newest first. */
  function ByNewest(stories: seq<StoryRow>): (s: seq<StoryRow>)
    ensures SortedBy(s, NewerFirst) && multiset(s) == multiset(stories)
  {
    NewerFirstTotalPreorder();
    SortBySorted(stories, NewerFirst);
    SortBy(stories, NewerFirst)
  }

  /** A page is a slice: its elements keep their order and come from the
      sequence paged. */
  lemma PageSlice<T>(xs: seq<T>, limit: int, offset: int, le: (T, T) -> bool)
    requires SortedBy(xs, le)
    ensures SortedBy(Page(xs, limit, offset), le)
    ensures forall k :: 0 <= k < |Page(xs, limit, offset)| ==> Page(xs, limit, offset)[k] in multiset(xs)
  {
    var rows := Page(xs, limit, offset);
    var s := PageStart(|xs|, offset);
    assert forall k :: 0 <= k < |rows| ==> rows[k] == xs[s + k];
  }

  /** The story rows of one page, newest first. */
  function NewestPage(stories: seq<StoryRow>, limit: int, offset: int): (rows: seq<StoryRow>)
    ensures |rows| == |Page(stories, limit, offset)|
    ensures forall i, j :: 0 <= i < j < |rows| ==> LexLe(rows[j].createdAt, rows[i].createdAt)
    ensures forall k :: 0 <= k < |rows| ==> rows[k] in stories
  {
    var sorted := ByNewest(stories);
    PageSlice(sorted, limit, offset, NewerFirst);
    Page(sorted, limit, offset)
  }

  /** list_stories(limit, offset). */
  function QueryList(stories: seq<StoryRow>, episodes: seq<EpisodeRow>, limit: int, offset: int): (r: seq<StoryListItem>)
    ensures limit >= 0 ==> |r| <= limit
    ensures |r| == |Page(stories, limit, offset)|
    ensures forall i, j :: 0 <= i < j < |r| ==> LexLe(r[j].createdAt, r[i].createdAt)
    ensures forall k :: 0 <= k < |r| ==> RowOfItem(r[k]) in stories
    ensures forall k :: 0 <= k < |r| ==> r[k].firstEpisodeImageUrl == FirstImage(episodes, r[k].storyId)
  {
    var rows := NewestPage(stories, limit, offset);
    var r := Items(rows, episodes);
    assert forall k :: 0 <= k < |r| ==> RowOfItem(r[k]) == rows[k];
    r
  }

  /** The list items of some story rows, in their order. */
  function Items(rows: seq<StoryRow>, episodes: seq<EpisodeRow>): seq<StoryListItem> {
    seq(|rows|, k requires 0 <= k < |rows| => ListItem(rows[k], episodes))
  }

  /** Without limit or offset every stored story is listed once. */
  lemma ListAll(stories: seq<StoryRow>, episodes: seq<EpisodeRow>)
    ensures |QueryList(stories, episodes, -1, 0)| == |stories|
    ensures forall row :: row in stories ==>
      exists k :: 0 <= k < |stories| && RowOfItem(QueryList(stories, episodes, -1, 0)[k]) == row
  {
    var sorted := ByNewest(stories);
    var all := QueryList(stories, episodes, -1, 0);
    assert Page(sorted, -1, 0) == sorted;
    forall row | row in stories
      ensures exists k :: 0 <= k < |stories| && RowOfItem(all[k]) == row
    {
      assert row in multiset(sorted);
      var k :| 0 <= k < |sorted| && sorted[k] == row;
      assert RowOfItem(all[k]) == row;
    }
  }

  /** A page is the slice of the full list that starts at the offset. */
  lemma PageOfList(stories: seq<StoryRow>, episodes: seq<EpisodeRow>, limit: int, offset: int)
    requires limit >= 0 && offset >= 0
    ensures var all := QueryList(stories, episodes, -1, 0);
      var s := if offset < |all| then offset else |all|;
      QueryList(stories, episodes, limit, offset) == Take(all[s..], limit)
  {
    var sorted := ByNewest(stories);
    var s := if offset < |sorted| then offset else |sorted|;
    assert Page(sorted, -1, 0) == sorted;
    PageOfPage(sorted, limit, offset);
    ItemsSlice(sorted, episodes, s, limit);
  }

  /** A page with a limit and an offset is a prefix of the rest of the
      sequence after the offset. */
  lemma PageOfPage<T>(xs: seq<T>, limit: int, offset: int)
    requires limit >= 0 && offset >= 0
    ensures Page(xs, limit, offset) == Take(xs[(if offset < |xs| then offset else |xs|)..], limit)
  {
  }

  /** Making the list items commutes with slicing the rows. */
  lemma ItemsSlice(rows: seq<StoryRow>, episodes: seq<EpisodeRow>, s: nat, limit: int)
    requires s <= |rows|
    ensures Items(Take(rows[s..], limit), episodes) == Take(Items(rows, episodes)[s..], limit)
  {
    var a := Items(Take(rows[s..], limit), episodes);
    var b := Take(Items(rows, episodes)[s..], limit);
    assert |a| == |b|;
    forall k | 0 <= k < |a| ensures a[k] == b[k] {
      assert Take(rows[s..], limit)[k] == rows[s + k];
    }
  }

  // ---------------------------------------------------------------------
  // The repository object
  // ---------------------------------------------------------------------

  class StoryRepository {
    var stories: seq<StoryRow>
    var episodes: seq<EpisodeRow>

    ghost predicate Valid()
      reads this
    {
      TablesValid(stories, episodes)
    }

    /** An empty store. */
    constructor()
      ensures Valid() && stories == [] && episodes == []
    {
      stories := [];
      episodes := [];
    }

    function GetStory(id: string): Option<GetStoryResponse>
      reads this
    {
      QueryStory(stories, episodes, id)
    }

    function ListStories(limit: int, offset: int): seq<StoryListItem>
      reads this
    {
      QueryList(stories, episodes, limit, offset)
    }

    /** save_story: inserts the story row, then one episode row per episode
        with ordinal i for the i-th; an id already stored violates the
        primary key and nothing is inserted. */
    method SaveStory(storyId: string, topic: string, title: string, numEpisodes: int,
                     eps: seq<NewEpisode>, now: string) returns (saved: bool)
      requires Valid()
      modifies this
      ensures Valid()
      ensures saved <==> !HasStory(old(stories), storyId)
      ensures !saved ==> stories == old(stories) && episodes == old(episodes)
      ensures saved ==> stories == old(stories) + [StoryRow(storyId, topic, title, numEpisodes, now)]
      ensures saved ==> episodes == old(episodes) + EpisodeRows(storyId, eps)
      ensures saved ==> GetStory(storyId) == Some(GetStoryResponse(storyId, topic, title, numEpisodes, now, SavedOuts(eps)))
    {
      if FindStory(stories, storyId).Some? {
        return false;
      }
      var row := StoryRow(storyId, topic, title, numEpisodes, now);
      SaveKeepsValid(stories, episodes, row, eps);
      SaveThenGet(stories, episodes, row, eps);
      stories := stories + [row];
      var i := 0;
      while i < |eps|
        invariant 0 <= i <= |eps|
        invariant stories == old(stories) + [row]
        invariant episodes == old(episodes) + EpisodeRows(storyId, eps[..i])
      {
        var next := EpisodeRow(storyId, i, eps[i].text, eps[i].imageUrl, eps[i].imagePrompt.GetOr(""));
        EpisodeRowsSnoc(storyId, eps, i);
        AppendAssoc(old(episodes), EpisodeRows(storyId, eps[..i]), [next]);
        episodes := episodes + [next];
        i := i + 1;
      }
      assert eps[..|eps|] == eps;
      return true;
    }
  }
}
