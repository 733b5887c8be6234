/**
 * The reply ledger of state.py: a table of the comments already answered, keyed by
 * comment id (`comment_id TEXT PRIMARY KEY`). The sqlite file becomes a map that lives
 * in a `StateStore` object; the clock reading taken by `mark_replied` is a parameter.
 */
module State {
  import opened Wrappers

  /** One row of the `replied` table. */
  datatype ReplyRecord = ReplyRecord(commentId: string, replyText: string, repliedAt: int, postId: Option<string>)

  /** The table, by primary key. */
  type Ledger = map<string, ReplyRecord>

  /** Every row is filed under its own comment id, as a primary-key column is. */
  predicate WellKeyed(ledger: Ledger) {
    forall c :: c in ledger ==> ledger[c].commentId == c
  }

  /**
   * `INSERT OR REPLACE` of one row: the row for `commentId` becomes the new record,
   * whether or not one existed, and every other row stays as it was.
   */
  function Upsert(ledger: Ledger, commentId: string, replyText: string, postId: Option<string>, now: int): (r: Ledger)
    ensures r.Keys == ledger.Keys + {commentId}
    ensures r[commentId] == ReplyRecord(commentId, replyText, now, postId)
    ensures forall c :: c in ledger && c != commentId ==> r[c] == ledger[c]
    ensures WellKeyed(ledger) ==> WellKeyed(r)
  {
    ledger[commentId := ReplyRecord(commentId, replyText, now, postId)]
  }

  /** Two writes for the same id leave one row, holding the second write. */
  lemma UpsertLastWins(ledger: Ledger, commentId: string, first: string, firstPost: Option<string>, firstAt: int,
                       second: string, secondPost: Option<string>, secondAt: int)
    ensures Upsert(Upsert(ledger, commentId, first, firstPost, firstAt), commentId, second, secondPost, secondAt)
         == Upsert(ledger, commentId, second, secondPost, secondAt)
  {
    var once := Upsert(ledger, commentId, second, secondPost, secondAt);
    var twice := Upsert(Upsert(ledger, commentId, first, firstPost, firstAt), commentId, second, secondPost, secondAt);
    assert twice.Keys == once.Keys;
    assert forall c :: c in twice ==> twice[c] == once[c];
  }

  /** Writes for two different ids commute. */
  lemma UpsertCommutes(ledger: Ledger, a: string, aText: string, aPost: Option<string>, aAt: int,
                       b: string, bText: string, bPost: Option<string>, bAt: int)
    requires a != b
    ensures Upsert(Upsert(ledger, a, aText, aPost, aAt), b, bText, bPost, bAt)
         == Upsert(Upsert(ledger, b, bText, bPost, bAt), a, aText, aPost, aAt)
  {
    var ab := Upsert(Upsert(ledger, a, aText, aPost, aAt), b, bText, bPost, bAt);
    var ba := Upsert(Upsert(ledger, b, bText, bPost, bAt), a, aText, aPost, aAt);
    assert ab.Keys == ba.Keys;
    forall c | c in ab
      ensures ab[c] == ba[c]
    {
      if c != a && c != b {
        assert ab[c] == ledger[c] == ba[c];
      }
    }
  }

  /** The reply store: the `replied` table as an in-memory map. */
  class StateStore {
    var records: Ledger

    ghost predicate Valid()
      reads this
    {
      WellKeyed(records)
    }

    /**
     * Opening a store over an existing table (`CREATE TABLE IF NOT EXISTS`) keeps every
     * row it already holds; a fresh database is the empty map.
     */
    constructor (existing: Ledger)
      requires WellKeyed(existing)
      ensures Valid()
      ensures records == existing
    {
      records := existing;
    }

    /** `has_replied`: whether a row keyed `commentId` exists. The store is not changed. */
    method HasReplied(commentId: string) returns (b: bool)
      ensures b <==> commentId in records
    {
      b := commentId in records;
    }

    /** `mark_replied` at time `now`: upsert of the row `(commentId, replyText, now, postId)`. */
    method MarkReplied(commentId: string, replyText: string, postId: Option<string>, now: int)
      requires Valid()
      modifies this
      ensures Valid()
      ensures records == Upsert(old(records), commentId, replyText, postId, now)
      ensures commentId in records && records[commentId] == ReplyRecord(commentId, replyText, now, postId)
    {
      records := records[commentId := ReplyRecord(commentId, replyText, now, postId)];
    }
  }
}
