/**
 * The "random film" section (app.py:137-144): the catalog titles not yet
 * watched, and a suggestion drawn from them.
 */
module Recommender {
  import opened Wrappers
  import opened Store
  import Catalog

  /** set(df["movie_title"]), or the empty set when the table is empty. */
  function WatchedTitles(rows: seq<Entry>): (w: set<string>)
    ensures forall t :: t in w <==> exists i :: 0 <= i < |rows| && rows[i].title == t
  {
    if rows == [] then {} else set i | 0 <= i < |rows| :: rows[i].title
  }

  /** set(DOVZHENKO_TOP_100) - watched_titles */
  function Unwatched(rows: seq<Entry>): (u: set<string>)
    ensures u <= Catalog.TitleSet()
    ensures forall t :: t in u <==> t in Catalog.Titles && t !in WatchedTitles(rows)
  {
    Catalog.TitleSet() - WatchedTitles(rows)
  }

  /**
   * The suggestion button: None ("all watched") when no title is left,
   * otherwise some title not yet watched.  random.choice is modelled as an
   * arbitrary choice; no distribution is claimed.
   */
  method Suggest(rows: seq<Entry>) returns (s: Option<string>)
    ensures s.None? <==> Unwatched(rows) == {}
    ensures s.Some? ==> s.value in Catalog.Titles && s.value !in WatchedTitles(rows)
  {
    var unwatched := Unwatched(rows);
    if unwatched != {} {
      var t :| t in unwatched;
      s := Some(t);
    } else {
      s := None;
    }
  }

  /** On an empty table nothing has been watched and all 15 titles are candidates. */
  lemma EmptyLogSuggestsWholeCatalog()
    ensures WatchedTitles([]) == {}
    ensures Unwatched([]) == Catalog.TitleSet()
    ensures |Unwatched([])| == 15
  {
    Catalog.CatalogSize();
  }

  /** Nothing is left to suggest exactly when every catalog title has been watched. */
  lemma AllWatchedIff(rows: seq<Entry>)
    ensures Unwatched(rows) == {} <==> forall t :: t in Catalog.Titles ==> t in WatchedTitles(rows)
  {
  }

  /** Logging one more watch removes its title (and only it) from the candidates. */
  lemma {:induction false} UnwatchedAfterAppend(rows: seq<Entry>, e: Entry)
    ensures Unwatched(rows + [e]) == Unwatched(rows) - {e.title}
  {
    var rs := rows + [e];
    forall t ensures t in WatchedTitles(rs) <==> t in WatchedTitles(rows) || t == e.title {
      if t in WatchedTitles(rs) {
        var i :| 0 <= i < |rs| && rs[i].title == t;
        if i < |rows| { assert rows[i].title == t; }
      }
      if t in WatchedTitles(rows) {
        var i :| 0 <= i < |rows| && rows[i].title == t;
        assert rs[i].title == t;
      }
      if t == e.title { assert rs[|rows|].title == t; }
    }
  }
}
