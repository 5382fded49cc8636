/** Which dated selection was effective at an instant (modules/subject-policy/domain/selection.ts). */
module Selection {
  import opened Results
  import opened Strings

  /** Instants are milliseconds; the profile stands for the pinned references of the row. */
  datatype Row = Row(id: string, profile: string, effectiveFrom: int, effectiveTo: Option<int>, withdrawnAt: Option<int>)

  datatype AtInstant =
    | Effective(selection: Row)
    | Expired(selectionId: string, expiredAt: int)
    | NoSelection

  predicate WasWithdrawnBy(row: Row, at: int) {
    row.withdrawnAt.Some? && row.withdrawnAt.value <= at
  }

  predicate WindowCovers(row: Row, at: int) {
    row.effectiveFrom <= at && (row.effectiveTo.None? || at < row.effectiveTo.value)
  }

  /** Begun, not ended, and not withdrawn by `at`. */
  predicate Candidate(row: Row, at: int) {
    && row.effectiveFrom <= at
    && (row.effectiveTo == None || row.effectiveTo.value > at)
    && (row.withdrawnAt == None || row.withdrawnAt.value > at)
  }

  /** A row whose window had run out by `at`. */
  predicate RanOut(row: Row, at: int) {
    && row.effectiveTo.Some?
    && row.effectiveFrom <= at
    && row.effectiveTo.value <= at
    && (row.withdrawnAt == None || row.withdrawnAt.value > at)
  }

  /** Order of (instant, id) pairs. */
  predicate Later(t: int, id: string, u: int, jd: string) {
    t > u || (t == u && Less(jd, id))
  }

  lemma LaterIsTotal(t: int, id: string, u: int, jd: string)
    ensures !(Later(t, id, u, jd) && Later(u, jd, t, id))
    ensures Later(t, id, u, jd) || Later(u, jd, t, id) || (t == u && id == jd)
  {
    LessIsTotal(id, jd);
  }

  lemma LaterIsTransitive(t: int, id: string, u: int, jd: string, v: int, kd: string)
    requires Later(t, id, u, jd) && Later(u, jd, v, kd)
    ensures Later(t, id, v, kd)
  {
    if t == u == v {
      LessIsTransitive(kd, jd, id);
    }
  }

  ghost predicate DistinctIds(rows: seq<Row>) {
    forall i, j :: 0 <= i < |rows| && 0 <= j < |rows| && rows[i].id == rows[j].id ==> i == j
  }

  // ---------------------------------------------------------------------
  // The specification
  // ---------------------------------------------------------------------

  /** `winner` is the greatest candidate by (effectiveFrom, id). */
  ghost predicate IsWinner(rows: seq<Row>, at: int, winner: Row) {
    && winner in rows && Candidate(winner, at)
    && (forall r :: r in rows && Candidate(r, at) ==> !Later(r.effectiveFrom, r.id, winner.effectiveFrom, winner.id))
  }

  /** `last` is the greatest run-out row by (effectiveTo, id). */
  ghost predicate IsLastExpired(rows: seq<Row>, at: int, last: Row) {
    && last in rows && RanOut(last, at)
    && (forall r :: r in rows && RanOut(r, at) ==> !Later(r.effectiveTo.value, r.id, last.effectiveTo.value, last.id))
  }

  /** What the answer means, over the rows as a collection. */
  ghost predicate Answers(rows: seq<Row>, at: int, answer: AtInstant) {
    match answer
    case Effective(selection) => IsWinner(rows, at, selection)
    case Expired(id, expiredAt) =>
      && (forall r :: r in rows ==> !Candidate(r, at))
      && exists r :: r in rows && r.id == id && r.effectiveTo == Some(expiredAt) && IsLastExpired(rows, at, r)
    case NoSelection =>
      forall r :: r in rows ==> !Candidate(r, at) && !RanOut(r, at)
  }

  // ---------------------------------------------------------------------
  // The algorithm
  // ---------------------------------------------------------------------

  method ResolveSelectionAt(rows: seq<Row>, at: int) returns (answer: AtInstant)
    ensures Answers(rows, at, answer)
  {
    var candidates: seq<Row> := [];
    for i := 0 to |rows|
      invariant forall r :: r in candidates <==> r in rows[..i] && Candidate(r, at)
    {
      if WindowCovers(rows[i], at) && !WasWithdrawnBy(rows[i], at) {
        candidates := candidates + [rows[i]];
      }
    }
    if |candidates| > 0 {
      var winner := candidates[0];
      for i := 0 to |candidates|
        invariant winner in candidates
        invariant forall k :: 0 <= k < i ==>
                    !Later(candidates[k].effectiveFrom, candidates[k].id, winner.effectiveFrom, winner.id)
      {
        var row := candidates[i];
        if row.effectiveFrom > winner.effectiveFrom
            || (row.effectiveFrom == winner.effectiveFrom && Less(winner.id, row.id)) {
          StaysBehind(candidates[..i], winner, row);
          winner := row;
        }
        LaterIsTotal(row.effectiveFrom, row.id, row.effectiveFrom, row.id);
      }
      return Effective(winner);
    }

    var expired: Option<Row> := None;
    for i := 0 to |rows|
      invariant expired.None? ==> forall r :: r in rows[..i] ==> !RanOut(r, at)
      invariant expired.Some? ==>
                  && expired.value in rows[..i] && RanOut(expired.value, at)
                  && forall k :: 0 <= k < i && RanOut(rows[k], at) ==>
                       !Later(rows[k].effectiveTo.value, rows[k].id, expired.value.effectiveTo.value, expired.value.id)
    {
      var row := rows[i];
      if row.effectiveTo.None? {
        continue;
      }
      if row.effectiveFrom > at {
        continue;
      }
      if row.effectiveTo.value > at {
        continue;
      }
      if WasWithdrawnBy(row, at) {
        continue;
      }
      LaterIsTotal(row.effectiveTo.value, row.id, row.effectiveTo.value, row.id);
      if expired.None? || row.effectiveTo.value > expired.value.effectiveTo.value
         || (row.effectiveTo.value == expired.value.effectiveTo.value && Less(expired.value.id, row.id))
      {
        if expired.Some? {
          StaysExpiredBehind(rows[..i], at, expired.value, row);
        }
        expired := Some(row);
      }
    }
    if expired.Some? {
      return Expired(expired.value.id, expired.value.effectiveTo.value);
    }
    return NoSelection;
  }

  /** Whatever did not pass the old winner does not pass a later one. */
  lemma StaysBehind(rows: seq<Row>, winner: Row, row: Row)
    requires Later(row.effectiveFrom, row.id, winner.effectiveFrom, winner.id)
    requires forall k :: 0 <= k < |rows| ==> !Later(rows[k].effectiveFrom, rows[k].id, winner.effectiveFrom, winner.id)
    ensures forall k :: 0 <= k < |rows| ==> !Later(rows[k].effectiveFrom, rows[k].id, row.effectiveFrom, row.id)
  {
    forall k | 0 <= k < |rows| ensures !Later(rows[k].effectiveFrom, rows[k].id, row.effectiveFrom, row.id) {
      if Later(rows[k].effectiveFrom, rows[k].id, row.effectiveFrom, row.id) {
        LaterIsTransitive(rows[k].effectiveFrom, rows[k].id, row.effectiveFrom, row.id, winner.effectiveFrom, winner.id);
      }
    }
  }

  lemma StaysExpiredBehind(rows: seq<Row>, at: int, last: Row, row: Row)
    requires RanOut(last, at) && RanOut(row, at)
    requires Later(row.effectiveTo.value, row.id, last.effectiveTo.value, last.id)
    requires forall k :: 0 <= k < |rows| && RanOut(rows[k], at) ==>
               !Later(rows[k].effectiveTo.value, rows[k].id, last.effectiveTo.value, last.id)
    ensures forall k :: 0 <= k < |rows| && RanOut(rows[k], at) ==>
              !Later(rows[k].effectiveTo.value, rows[k].id, row.effectiveTo.value, row.id)
  {
    forall k | 0 <= k < |rows| && RanOut(rows[k], at)
      ensures !Later(rows[k].effectiveTo.value, rows[k].id, row.effectiveTo.value, row.id)
    {
      if Later(rows[k].effectiveTo.value, rows[k].id, row.effectiveTo.value, row.id) {
        LaterIsTransitive(rows[k].effectiveTo.value, rows[k].id, row.effectiveTo.value, row.id, last.effectiveTo.value,
            last.id);
      }
    }
  }

  // ---------------------------------------------------------------------
  // One answer, whatever the row order
  // ---------------------------------------------------------------------

  lemma SameIdSameRow(rows: seq<Row>, r: Row, s: Row)
    requires DistinctIds(rows) && r in rows && s in rows && r.id == s.id
    ensures r == s
  {
    var i :| 0 <= i < |rows| && rows[i] == r;
    var j :| 0 <= j < |rows| && rows[j] == s;
  }

  /** Rows with distinct ids have one answer, and any other listing of the same rows has it too. */
  lemma AnswerIgnoresRowOrder(rows: seq<Row>, listed: seq<Row>, at: int, a: AtInstant, b: AtInstant)
    requires DistinctIds(rows)
    requires forall r :: r in rows <==> r in listed
    requires Answers(rows, at, a) && Answers(listed, at, b)
    ensures a == b
  {
    if a.Effective? && b.Effective? {
      var r, s := a.selection, b.selection;
      LaterIsTotal(r.effectiveFrom, r.id, s.effectiveFrom, s.id);
      SameIdSameRow(rows, r, s);
    } else if a.Expired? && b.Expired? {
      var r :| r in rows && r.id == a.selectionId && r.effectiveTo == Some(a.expiredAt) && IsLastExpired(rows, at, r);
      var s :| s in listed && s.id == b.selectionId && s.effectiveTo == Some(b.expiredAt) && IsLastExpired(listed, at, s);
      LaterIsTotal(r.effectiveTo.value, r.id, s.effectiveTo.value, s.id);
    }
  }

  // ---------------------------------------------------------------------
  // Replay of past instants
  // ---------------------------------------------------------------------

  /** `later` is `earlier` after edits that all bear on instants after `at`: rows
      withdrawn after `at`, and new rows effective after `at`. */
  ghost predicate EditedAfter(at: int, earlier: seq<Row>, later: seq<Row>) {
    && |earlier| <= |later|
    && (forall i :: 0 <= i < |earlier| ==> WithdrawnAfter(at, earlier[i], later[i]))
    && (forall i :: |earlier| <= i < |later| ==> later[i].effectiveFrom > at)
  }

  predicate WithdrawnAfter(at: int, before: Row, after: Row) {
    after == before || (before.withdrawnAt.None? && after.withdrawnAt.Some? && after.withdrawnAt.value > at
                        && after == before.(withdrawnAt := after.withdrawnAt))
  }

  /** The answer as provenance sees it: the row elected and what it pinned. */
  function Pinned(answer: AtInstant): AtInstant {
    match answer
    case Effective(selection) => Effective(selection.(withdrawnAt := None))
    case _ => answer
  }

  /** At `at`, an edited row counts as it did and a new row does not count. */
  lemma EarlierRowsBearOut(at: int, earlier: seq<Row>, later: seq<Row>)
    requires EditedAfter(at, earlier, later)
    ensures forall i :: 0 <= i < |later| ==>
              if i < |earlier| then
                && (Candidate(later[i], at) <==> Candidate(earlier[i], at))
                && (RanOut(later[i], at) <==> RanOut(earlier[i], at))
                && earlier[i] in earlier && later[i] in later
              else !Candidate(later[i], at) && !RanOut(later[i], at)
  {
    forall i | 0 <= i < |earlier| ensures WithdrawnAfter(at, earlier[i], later[i]) {}
  }

  /** The winner before the edits wins after them. */
  lemma WinnerIsReplayed(at: int, earlier: seq<Row>, later: seq<Row>, i: nat)
    requires EditedAfter(at, earlier, later) && i < |earlier| && IsWinner(earlier, at, earlier[i])
    ensures IsWinner(later, at, later[i])
  {
    EarlierRowsBearOut(at, earlier, later);
    forall r | r in later && Candidate(r, at)
      ensures !Later(r.effectiveFrom, r.id, later[i].effectiveFrom, later[i].id)
    {
      var k :| 0 <= k < |later| && later[k] == r;
      assert k < |earlier| && Candidate(earlier[k], at);
      assert WithdrawnAfter(at, earlier[k], later[k]) && WithdrawnAfter(at, earlier[i], later[i]);
    }
  }

  lemma LastExpiredIsReplayed(at: int, earlier: seq<Row>, later: seq<Row>, i: nat)
    requires EditedAfter(at, earlier, later) && i < |earlier| && IsLastExpired(earlier, at, earlier[i])
    ensures IsLastExpired(later, at, later[i])
  {
    EarlierRowsBearOut(at, earlier, later);
    forall r | r in later && RanOut(r, at)
      ensures !Later(r.effectiveTo.value, r.id, later[i].effectiveTo.value, later[i].id)
    {
      var k :| 0 <= k < |later| && later[k] == r;
      assert k < |earlier| && RanOut(earlier[k], at);
      assert WithdrawnAfter(at, earlier[k], later[k]) && WithdrawnAfter(at, earlier[i], later[i]);
    }
  }

  /** After the edits the rows still have an answer that pins the same. */
  lemma AnswerIsReplayed(at: int, earlier: seq<Row>, later: seq<Row>, a: AtInstant) returns (b: AtInstant)
    requires EditedAfter(at, earlier, later) && Answers(earlier, at, a)
    ensures Answers(later, at, b) && Pinned(a) == Pinned(b)
  {
    EarlierRowsBearOut(at, earlier, later);
    if a.Effective? {
      var i :| 0 <= i < |earlier| && earlier[i] == a.selection;
      WinnerIsReplayed(at, earlier, later, i);
      assert WithdrawnAfter(at, earlier[i], later[i]);
      return Effective(later[i]);
    }
    forall r | r in later ensures !Candidate(r, at) {
      var k :| 0 <= k < |later| && later[k] == r;
    }
    if a.Expired? {
      var last :| last in earlier && last.id == a.selectionId && last.effectiveTo == Some(a.expiredAt)
                  && IsLastExpired(earlier, at, last);
      var i :| 0 <= i < |earlier| && earlier[i] == last;
      LastExpiredIsReplayed(at, earlier, later, i);
      assert WithdrawnAfter(at, earlier[i], later[i]);
      return a;
    }
    forall r | r in later ensures !RanOut(r, at) {
      var k :| 0 <= k < |later| && later[k] == r;
    }
    return a;
  }

  /** A past instant keeps its answer, whatever is elected or withdrawn afterwards. */
  lemma PastIsReplayed(at: int, earlier: seq<Row>, later: seq<Row>, a: AtInstant, b: AtInstant)
    requires DistinctIds(later) && EditedAfter(at, earlier, later)
    requires Answers(earlier, at, a) && Answers(later, at, b)
    ensures Pinned(a) == Pinned(b)
  {
    var replayed := AnswerIsReplayed(at, earlier, later, a);
    AnswerIgnoresRowOrder(later, later, at, replayed, b);
  }

  // ---------------------------------------------------------------------
  // Constant between boundaries
  // ---------------------------------------------------------------------

  /** No start, end or withdrawal instant falls in (from, to]. */
  ghost predicate NoBoundaryBetween(rows: seq<Row>, from: int, to: int) {
    forall r :: r in rows ==>
      && !(from < r.effectiveFrom <= to)
      && (r.effectiveTo.Some? ==> !(from < r.effectiveTo.value <= to))
      && (r.withdrawnAt.Some? ==> !(from < r.withdrawnAt.value <= to))
  }

  /** The answer changes only at start, end and withdrawal instants. */
  lemma ConstantBetweenBoundaries(rows: seq<Row>, from: int, to: int, answer: AtInstant)
    requires from <= to && NoBoundaryBetween(rows, from, to)
    ensures Answers(rows, from, answer) <==> Answers(rows, to, answer)
  {
    assert forall r :: r in rows ==>
      (Candidate(r, from) <==> Candidate(r, to)) && (RanOut(r, from) <==> RanOut(r, to));
    if answer.Expired? {
      assert forall r :: IsLastExpired(rows, from, r) <==> IsLastExpired(rows, to, r);
    }
  }
}
