/**
 * The `submissions` table as an append-only log: inserting is the only way to
 * change it, and the admin listing reads it ordered by `created_at`, newest first.
 */
module Store {
  import opened Submissions

  /** Ids are the integer primary keys the table assigns: 1, 2, 3, ... in insertion order. */
  ghost predicate WellNumbered(records: seq<Submission>) {
    forall i :: 0 <= i < |records| ==> records[i].id == i + 1
  }

  /** No two records share an id. */
  ghost predicate DistinctIds(records: seq<Submission>) {
    forall i, j :: 0 <= i < |records| && 0 <= j < |records| && i != j ==> records[i].id != records[j].id
  }

  lemma WellNumberedIdsDistinct(records: seq<Submission>)
    requires WellNumbered(records)
    ensures DistinctIds(records)
  {
  }

  /** The table's rows and the id the next insert receives. */
  class SubmissionStore {
    var records: seq<Submission>
    var nextId: nat

    ghost predicate Valid()
      reads this
    {
      WellNumbered(records) && nextId == |records| + 1
    }

    /** A freshly created, empty table. */
    constructor ()
      ensures Valid() && records == []
    {
      records := [];
      nextId := 1;
    }

    /**
     * Adds exactly one row holding `answers`, stamped with `now` (the clock's reading
     * at insert time) and a fresh id, one more than the largest id so far. Rows already
     * stored are left exactly as they were.
     */
    method Insert(answers: Answers, now: int) returns (id: nat)
      requires Valid()
      modifies this
      ensures Valid()
      ensures records == old(records) + [Stored(id, now, answers)]
      ensures forall r :: r in old(records) ==> r.id < id
      ensures id == |old(records)| + 1
    {
      id := nextId;
      records := records + [Stored(id, now, answers)];
      nextId := nextId + 1;
    }
  }

  /** `created_at` never increases from one row to the next: newest first. */
  ghost predicate NewestFirst(rows: seq<Submission>) {
    forall i, j :: 0 <= i < j < |rows| ==> rows[i].createdAt >= rows[j].createdAt
  }

  /** Dropping the newest row keeps a newest-first list newest first. */
  lemma NewestFirstTail(rows: seq<Submission>)
    requires rows != [] && NewestFirst(rows)
    ensures NewestFirst(rows[1..])
  {
    forall i, j | 0 <= i < j < |rows[1..]|
      ensures rows[1..][i].createdAt >= rows[1..][j].createdAt
    {
      assert rows[1..][i] == rows[i + 1] && rows[1..][j] == rows[j + 1];
    }
  }

  /** A row no older than the head of a newest-first list can go in front of it. */
  lemma NewestFirstCons(x: Submission, rows: seq<Submission>)
    requires NewestFirst(rows)
    requires rows != [] ==> x.createdAt >= rows[0].createdAt
    ensures NewestFirst([x] + rows)
  {
    var r := [x] + rows;
    forall i, j | 0 <= i < j < |r| ensures r[i].createdAt >= r[j].createdAt {
      if i == 0 {
        assert r[j] == rows[j - 1];
        if j > 1 {
          assert rows[0].createdAt >= rows[j - 1].createdAt;
        }
      } else {
        assert r[i] == rows[i - 1] && r[j] == rows[j - 1];
      }
    }
  }

  /** Places `x` after every row of the equally old or newer prefix of `rows`. */
  function InsertByTime(x: Submission, rows: seq<Submission>): (r: seq<Submission>)
    requires NewestFirst(rows)
    ensures NewestFirst(r)
    ensures multiset(r) == multiset(rows) + multiset{x}
    ensures |r| == |rows| + 1 && (r[0] == x || (rows != [] && r[0] == rows[0]))
  {
    if rows == [] then
      NewestFirstCons(x, rows);
      [x]
    else if x.createdAt > rows[0].createdAt then
      NewestFirstCons(x, rows);
      [x] + rows
    else
      assert rows == [rows[0]] + rows[1..];
      NewestFirstTail(rows);
      var t := InsertByTime(x, rows[1..]);
      NewestFirstCons(rows[0], t);
      [rows[0]] + t
  }

  /**
   * The rows ordered by `created_at` descending. Among rows with equal timestamps
   * this places later inserts first; the database promises no particular order there,
   * and the contract promises none either.
   */
  function Listing(records: seq<Submission>): (r: seq<Submission>)
    ensures NewestFirst(r)
    ensures multiset(r) == multiset(records)
  {
    if records == [] then []
    else
      assert records == [records[0]] + records[1..];
      InsertByTime(records[0], Listing(records[1..]))
  }

  /** The listing holds exactly the stored rows (each as often as stored) and no others. */
  lemma ListingContents(records: seq<Submission>)
    ensures |Listing(records)| == |records|
    ensures forall r :: r in Listing(records) <==> r in records
  {
    var l := Listing(records);
    assert |l| == |multiset(l)| == |multiset(records)| == |records|;
    forall r ensures r in l <==> r in records {
      assert r in l <==> r in multiset(l);
      assert r in records <==> r in multiset(records);
    }
  }

  /** Of two rows stored at different times, the later one is listed first. */
  lemma ListingOrdersByTime(records: seq<Submission>, a: Submission, b: Submission)
    requires a in records && b in records
    requires a.createdAt > b.createdAt
    ensures exists i, j :: 0 <= i < j < |Listing(records)| && Listing(records)[i] == a && Listing(records)[j] == b
  {
    ListingContents(records);
    var l := Listing(records);
    var i :| 0 <= i < |l| && l[i] == a;
    var j :| 0 <= j < |l| && l[j] == b;
    assert i != j;
    assert !(j < i);
  }

  /** Two submissions, the second stored later: the admin listing shows the second first. */
  lemma TwoSubmissionsNewestFirst(a: Submission, b: Submission)
    requires b.createdAt > a.createdAt
    ensures Listing([a, b]) == [b, a]
  {
    assert [a, b][1..] == [b];
    assert [b][1..] == [];
  }
}
