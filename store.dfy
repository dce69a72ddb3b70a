/**
 * The watched_movies table (app.py:36-44) as an in-memory, append-only log.
 * Rows are only ever inserted (app.py:66-69) and read back whole (app.py:78);
 * ids come from INTEGER PRIMARY KEY AUTOINCREMENT.
 */
module Store {
  import opened Wrappers
  import opened Dates

  /** One row of watched_movies. */
  datatype Entry = Entry(id: int, title: string, watchDate: string, rating: int, notes: string)

  /**
   * Full: SQLITE_FULL, no rowid left.  Overflow: the OverflowError Python's
   * sqlite3 module raises when an int does not fit a 64-bit INTEGER.
   */
  datatype StoreError = Full | Overflow

  /**
   * The largest rowid SQLite can hand out.  Once it has been used, an
   * AUTOINCREMENT table refuses further inserts with SQLITE_FULL.
   */
  const MaxRowId: int := 0x7FFF_FFFF_FFFF_FFFF

  /** The values an SQLite INTEGER holds: signed 64-bit. */
  predicate FitsInteger(n: int)
  {
    -0x8000_0000_0000_0000 <= n <= 0x7FFF_FFFF_FFFF_FFFF
  }

  /** Ids in the order given are strictly increasing, hence pairwise distinct. */
  predicate IdsIncreasing(rows: seq<Entry>)
  {
    forall i, j :: 0 <= i < j < |rows| ==> rows[i].id < rows[j].id
  }

  /** Every stored rating is a 64-bit INTEGER. */
  predicate RatingsFit(rows: seq<Entry>)
  {
    forall i :: 0 <= i < |rows| ==> FitsInteger(rows[i].rating)
  }

  /** Every stored date is the ISO text of a calendar date. */
  predicate DatesReadable(rows: seq<Entry>)
  {
    forall i :: 0 <= i < |rows| ==> ParseIso(rows[i].watchDate).Some?
  }

  class WatchLog {
    /** The table's rows, in insertion order. */
    var rows: seq<Entry>
    /** The id the next insert receives: one more than the largest id ever used. */
    var nextId: int

    ghost predicate Valid()
      reads this
    {
      && 1 <= nextId
      && IdsIncreasing(rows)
      && (forall i :: 0 <= i < |rows| ==> 1 <= rows[i].id < nextId)
      && DatesReadable(rows)
      && RatingsFit(rows)
    }

    /** CREATE TABLE IF NOT EXISTS on a fresh database: no rows, ids start at 1. */
    constructor ()
      ensures Valid()
      ensures rows == [] && nextId == 1
    {
      rows := [];
      nextId := 1;
    }

    /**
     * INSERT INTO watched_movies (movie_title, watch_date, rating, notes):
     * appends one row holding the four values, the date as its ISO text,
     * under a fresh id larger than every earlier one.  A rating outside 64
     * bits is refused before anything is written (Overflow); so is any insert
     * once the largest rowid has been used (Full).
     */
    method Add(title: string, watchDate: Date, rating: int, notes: string) returns (r: Result<int, StoreError>)
      requires Valid()
      requires ValidDate(watchDate)
      modifies this
      ensures Valid()
      ensures !FitsInteger(rating) ==> r == Failure(Overflow)
      ensures FitsInteger(rating) && old(nextId) > MaxRowId ==> r == Failure(Full)
      ensures FitsInteger(rating) && old(nextId) <= MaxRowId ==> r == Success(old(nextId))
      ensures r.Failure? ==> rows == old(rows) && nextId == old(nextId)
      ensures r.Success? ==>
        && rows == old(rows) + [Entry(r.value, title, IsoFormat(watchDate), rating, notes)]
        && nextId == r.value + 1
        && (forall i :: 0 <= i < |old(rows)| ==> old(rows)[i].id < r.value)
    {
      if !FitsInteger(rating) {
        return Failure(Overflow);
      }
      if nextId > MaxRowId {
        return Failure(Full);
      }
      var id := nextId;
      ParseIsoFormat(watchDate);
      rows := rows + [Entry(id, title, IsoFormat(watchDate), rating, notes)];
      nextId := nextId + 1;
      r := Success(id);
    }

    /** SELECT * FROM watched_movies: every row, in id order. */
    function All(): (r: seq<Entry>)
      reads this
      requires Valid()
      ensures r == rows && IdsIncreasing(r) && DatesReadable(r) && RatingsFit(r)
      ensures forall i :: 0 <= i < |r| ==> 1 <= r[i].id < nextId
    {
      rows
    }
  }
}
