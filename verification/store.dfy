/**
 * The message store: an append-only log of rows. A write either commits one row at the
 * end or, on failure, is rolled back and leaves the log as it was.
 */
module MessageStore {
  import opened Records
  import opened Window

  /** The log after one write attempt, and whether the write committed. */
  datatype Saved<T> = Saved(rows: seq<T>, committed: bool)

  /** One add-and-commit; a failing commit is rolled back. */
  function Commit<T>(rows: seq<T>, row: T, succeeds: bool): Saved<T>
  {
    if succeeds then Saved(rows + [row], true) else Saved(rows, false)
  }

  /** The rows of one chat instance, in the order they were written. */
  function RowsOf(store: seq<Message>, id: InstanceId): (rows: seq<Message>)
    ensures |rows| <= |store|
    ensures forall k :: 0 <= k < |rows| ==> rows[k].chatInstanceId == id && rows[k] in store
    ensures forall i :: 0 <= i < |store| && store[i].chatInstanceId == id ==> store[i] in rows
  {
    if |store| == 0 then []
    else (if store[0].chatInstanceId == id then [store[0]] else []) + RowsOf(store[1..], id)
  }

  /** Appending a row adds it as the newest row of its own instance and touches no other instance. */
  lemma {:induction false} RowsOfAppend(store: seq<Message>, m: Message, id: InstanceId)
    ensures RowsOf(store + [m], id) == RowsOf(store, id) + (if m.chatInstanceId == id then [m] else [])
  {
    if |store| == 0 {
      assert ([] + [m])[1..] == [];
    } else {
      assert (store + [m])[1..] == store[1..] + [m];
      RowsOfAppend(store[1..], m, id);
    }
  }

  /** A written row is read back, unchanged, as the newest row of its instance. */
  lemma AppendedRowIsNewest(store: seq<Message>, m: Message, limit: nat)
    requires limit >= 1
    ensures var f := Fetch(RowsOf(store + [m], m.chatInstanceId), limit);
            |f| >= 1 && f[|f| - 1] == m
  {
    RowsOfAppend(store, m, m.chatInstanceId);
  }

  lemma AscendingTail(store: seq<Message>)
    requires Ascending(store) && |store| > 0
    ensures Ascending(store[1..])
  {
    var rest := store[1..];
    forall i, j | 0 <= i < j < |rest|
      ensures rest[i].createdDay <= rest[j].createdDay
    {
      assert rest[i] == store[i + 1] && rest[j] == store[j + 1];
    }
  }

  /** In a log in creation order, no row of any instance after the first row is older than it. */
  lemma LaterRowsNotOlder(store: seq<Message>, id: InstanceId)
    requires Ascending(store) && |store| > 0
    ensures forall k :: 0 <= k < |RowsOf(store[1..], id)| ==> store[0].createdDay <= RowsOf(store[1..], id)[k].createdDay
  {
    var rest := store[1..];
    var tail := RowsOf(rest, id);
    forall k | 0 <= k < |tail|
      ensures store[0].createdDay <= tail[k].createdDay
    {
      var j :| 0 <= j < |rest| && rest[j] == tail[k];
      assert store[j + 1] == tail[k];
    }
  }

  lemma AscendingPrepend(head: seq<Message>, tail: seq<Message>)
    requires |head| <= 1 && Ascending(tail)
    requires forall i, k :: 0 <= i < |head| && 0 <= k < |tail| ==> head[i].createdDay <= tail[k].createdDay
    ensures Ascending(head + tail)
  {
    var all := head + tail;
    forall i, j | 0 <= i < j < |all|
      ensures all[i].createdDay <= all[j].createdDay
    {
      assert all[j] == tail[j - |head|];
      if i >= |head| {
        assert all[i] == tail[i - |head|];
      }
    }
  }

  /** Filtering a log in creation order keeps it in creation order. */
  lemma {:induction false} RowsOfAscending(store: seq<Message>, id: InstanceId)
    requires Ascending(store)
    ensures Ascending(RowsOf(store, id))
  {
    if |store| > 0 {
      AscendingTail(store);
      RowsOfAscending(store[1..], id);
      LaterRowsNotOlder(store, id);
      var head := if store[0].chatInstanceId == id then [store[0]] else [];
      AscendingPrepend(head, RowsOf(store[1..], id));
      assert RowsOf(store, id) == head + RowsOf(store[1..], id);
    }
  }
}
