/**
  Insert-or-ignore with a job enqueued in the same transaction: the pattern shared by
  ingestion.service.ts, app-checkin.service.ts and identification.service.ts.

  A table has a unique key. An insert waits while another transaction holds an uncommitted row
  of its key; on a committed one it is ignored and the existing row is looked up. A job becomes
  durable only with its row. Ids are positions: rows are never deleted or changed.
*/
module Outbox {
  import opened Basics

  datatype Row<+K, +V> = Row(key: K, value: V)

  function IdOf<K(==), V>(rows: seq<Row<K, V>>, key: K): (r: Option<Id>)
    ensures r.Some? ==> r.value < |rows| && rows[r.value].key == key
    ensures r.None? ==> forall i :: 0 <= i < |rows| ==> rows[i].key != key
  {
    if rows == [] then None
    else if rows[|rows| - 1].key == key then Some(|rows| - 1)
    else IdOf(rows[..|rows| - 1], key)
  }

  /** One accepted send: the row it was answered with and whether this send created it. */
  datatype Receipt<+K> = Receipt(key: K, id: Id, created: bool)

  class Table<K(==), V> {
    var rows: seq<Row<K, V>>
    var jobs: seq<Id>

    constructor ()
      ensures rows == [] && jobs == []
    {
      rows, jobs := [], [];
    }

    method InsertOrIgnore(key: K, value: V) returns (receipt: Receipt<K>)
      modifies this
      ensures receipt.key == key
      ensures receipt.created <==> IdOf(old(rows), key).None?
      ensures if receipt.created
              then receipt.id == |old(rows)| && rows == old(rows) + [Row(key, value)] && jobs == old(jobs) + [receipt.id]
              else IdOf(old(rows), key) == Some(receipt.id) && rows == old(rows) && jobs == old(jobs)
    {
      var existing := IdOf(rows, key);
      if existing.Some? {
        return Receipt(key, existing.value, false);
      }
      var id := |rows|;
      rows := rows + [Row(key, value)];
      jobs := jobs + [id];
      return Receipt(key, id, true);
    }
  }

  // ---------------------------------------------------------------------------
  // Interleaved senders
  // ---------------------------------------------------------------------------

  datatype Sender<+K, +V> = Idle | Inserted(row: Row<K, V>) | Ignored(key: K, id: Id)

  datatype State<K, +V> = State(
    rows: seq<Row<K, V>>, jobs: seq<Id>, senders: map<Id, Sender<K, V>>, receipts: seq<Receipt<K>>)

  datatype Event<+K, +V> = Insert(w: Id, row: Row<K, V>) | Commit(w: Id) | Abort(w: Id)

  function Start<K, V>(): State<K, V> {
    State([], [], map[], [])
  }

  function SenderOf<K, V>(s: State<K, V>, w: Id): Sender<K, V> {
    if w in s.senders then s.senders[w] else Idle
  }

  function With<K, V>(s: State<K, V>, w: Id, sender: Sender<K, V>): State<K, V> {
    s.(senders := s.senders[w := sender])
  }

  ghost predicate MustWait<K, V>(s: State<K, V>, w: Id, key: K) {
    exists v: Id :: v != w && SenderOf(s, v).Inserted? && SenderOf(s, v).row.key == key
  }

  ghost function Step<K, V>(s: State<K, V>, e: Event<K, V>): State<K, V> {
    match e
    case Insert(w, row) =>
      if !SenderOf(s, w).Idle? || MustWait(s, w, row.key) then s
      else
        var existing := IdOf(s.rows, row.key);
        With(s, w, if existing.Some? then Ignored(row.key, existing.value) else Inserted(row))
    case Commit(w) =>
      match SenderOf(s, w) {
        case Idle => s
        case Inserted(row) =>
          With(s, w, Idle).(rows := s.rows + [row], jobs := s.jobs + [|s.rows|],
                            receipts := s.receipts + [Receipt(row.key, |s.rows|, true)])
        case Ignored(key, id) => With(s, w, Idle).(receipts := s.receipts + [Receipt(key, id, false)])
      }
    case Abort(w) => With(s, w, Idle)
  }

  ghost predicate KeysUnique<K, V>(rows: seq<Row<K, V>>) {
    forall i, j :: 0 <= i < j < |rows| ==> rows[i].key != rows[j].key
  }

  ghost predicate SenderOk<K, V>(s: State<K, V>, w: Id) {
    match SenderOf(s, w)
    case Idle => true
    case Inserted(row) =>
      && (forall i :: 0 <= i < |s.rows| ==> s.rows[i].key != row.key)
      && !MustWait(s, w, row.key)
    case Ignored(key, id) => id < |s.rows| && s.rows[id].key == key
  }

  /** Keys are unique, each row has its one job, and receipts name the row of their key. */
  ghost predicate Inv<K, V>(s: State<K, V>) {
    && KeysUnique(s.rows)
    && s.jobs == seq(|s.rows|, i => i)
    && (forall k :: 0 <= k < |s.receipts| ==>
          s.receipts[k].id < |s.rows| && s.rows[s.receipts[k].id].key == s.receipts[k].key)
    && (forall k, l :: 0 <= k < l < |s.receipts| && s.receipts[k].created && s.receipts[l].created ==>
          s.receipts[k].id < s.receipts[l].id)
    && forall w: Id :: SenderOk(s, w)
  }

  lemma {:induction false} StepKeepsSender<K, V>(s: State<K, V>, e: Event<K, V>, v: Id)
    requires SenderOk(s, v) && SenderOk(s, e.w)
    ensures SenderOk(Step(s, e), v)
  {
    var t := Step(s, e);
    assert forall w: Id :: w != e.w ==> SenderOf(t, w) == SenderOf(s, w);
    if v != e.w && SenderOf(s, v).Inserted? {
      assert SenderOf(s, e.w).Inserted? ==> SenderOf(s, e.w).row.key != SenderOf(s, v).row.key;
    }
  }

  lemma {:induction false} StepKeepsInv<K, V>(s: State<K, V>, e: Event<K, V>)
    requires Inv(s)
    ensures Inv(Step(s, e))
  {
    var t := Step(s, e);
    assert SenderOk(s, e.w);
    forall v: Id ensures SenderOk(t, v) {
      StepKeepsSender(s, e, v);
    }
    assert KeysUnique(t.rows);
    assert t.jobs == seq(|t.rows|, i => i);
  }

  /** Rows come only from committed inserts, and inserts only from their senders. */
  lemma {:induction false} StepFrame<K, V>(s: State<K, V>, e: Event<K, V>)
    ensures Step(s, e).rows == s.rows
            || (SenderOf(s, e.w).Inserted? && Step(s, e).rows == s.rows + [SenderOf(s, e.w).row])
    ensures forall w: Id :: SenderOf(Step(s, e), w).Inserted? ==>
              SenderOf(Step(s, e), w) == SenderOf(s, w)
              || (e.Insert? && w == e.w && SenderOf(Step(s, e), w).row == e.row && IdOf(s.rows, e.row.key).None?)
  {
  }

  ghost predicate AllIdle<K, V>(s: State<K, V>) {
    forall w: Id :: SenderOf(s, w).Idle?
  }

  /** With no other transaction open, an insert's two steps store what `InsertOrIgnore` stores. */
  lemma {:induction false} SerialInsertIsARun<K, V>(s: State<K, V>, w: Id, row: Row<K, V>)
    requires AllIdle(s)
    ensures var t := Step(Step(s, Insert(w, row)), Commit(w));
            var existing := IdOf(s.rows, row.key);
            && AllIdle(t)
            && if existing.None?
               then t.rows == s.rows + [row] && t.jobs == s.jobs + [|s.rows|]
                    && t.receipts == s.receipts + [Receipt(row.key, |s.rows|, true)]
               else t.rows == s.rows && t.jobs == s.jobs
                    && t.receipts == s.receipts + [Receipt(row.key, existing.value, false)]
  {
    var inserted := Step(s, Insert(w, row));
    var t := Step(inserted, Commit(w));
    assert !MustWait(s, w, row.key);
    forall v: Id ensures SenderOf(t, v).Idle? {
      assert v != w ==> SenderOf(t, v) == SenderOf(s, v);
    }
  }

  /** A rolled-back send leaves no row, job or receipt, and its key is free again. */
  lemma {:induction false} AbortRollsBack<K, V>(s: State<K, V>, w: Id)
    ensures var t := Step(s, Abort(w));
            && t.rows == s.rows && t.jobs == s.jobs && t.receipts == s.receipts && SenderOf(t, w).Idle?
            && forall v: Id :: v != w ==> SenderOf(t, v) == SenderOf(s, v)
  {
  }

  /** One row per key: two accepted sends of a key were answered with the same row, and it is
      a row of that key, created by at most one of them. */
  lemma {:induction false} ReceiptsAgree<K, V>(s: State<K, V>, k: nat, l: nat)
    requires Inv(s) && k < |s.receipts| && l < |s.receipts| && s.receipts[k].key == s.receipts[l].key
    ensures s.receipts[k].id == s.receipts[l].id < |s.rows|
    ensures s.receipts[k].created && s.receipts[l].created ==> k == l
  {
  }

  /** Every row has exactly one job, and no job is without a row. */
  lemma {:induction false} OneJobPerRow<K, V>(s: State<K, V>, id: Id)
    requires Inv(s)
    ensures multiset(s.jobs)[id] == if id < |s.rows| then 1 else 0
  {
    CountUpTo(|s.rows|, id);
  }

  lemma {:induction false} CountUpTo(n: nat, id: Id)
    ensures multiset(seq(n, i => i))[id] == if id < n then 1 else 0
    decreases n
  {
    if n > 0 {
      CountUpTo(n - 1, id);
      assert seq(n, i => i) == seq(n - 1, i => i) + [n - 1];
    }
  }
}
