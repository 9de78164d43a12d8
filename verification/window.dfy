/**
 * The history window: the newest `max_messages` rows of a chat instance, walked oldest
 * first through a two-tier age gate (at most two rows from the past week, same-day rows
 * up to the cap, older rows never) and mapped to role/content pairs.
 */
module Window {
  import opened Wrappers
  import opened Records

  /** One element of the window: a role and the stored field chosen as its content. */
  datatype Entry = Entry(role: string, content: Option<string>)

  /** `len(result) >= None` raises when the cap is absent and a same-day row is reached. */
  datatype WindowError = CapIsNone

  /** Calendar days from the row's creation day to today; negative for a future-dated row. */
  function DaysAgo(m: Message, today: int): int
  {
    today - m.createdDay
  }

  predicate HasKnownRole(m: Message)
  {
    m.role == UserRole || m.role == AssistantRole
  }

  /** The content a row contributes: `message` for a user row, `response` otherwise. */
  function Content(m: Message): Option<string>
  {
    if m.role == UserRole then m.message else m.response
  }

  /** The role mapping: user and assistant rows give an entry, any other role none. */
  function Project(m: Message): Option<Entry>
  {
    if HasKnownRole(m) then Some(Entry(m.role, Content(m))) else None
  }

  /**
   * The age gate met by a row when the window already holds `len` entries. A row dated
   * in the future matches none of the three tests and passes with no cap.
   */
  predicate Admits(m: Message, today: int, len: nat, cap: nat)
  {
    var d := DaysAgo(m, today);
    if d > 7 then false
    else if d > 0 then len < 2
    else if d == 0 then len < cap
    else true
  }

  /** One iteration of the loop over the fetched rows. */
  function Step(window: seq<Entry>, m: Message, today: int, cap: nat): seq<Entry>
  {
    if !Admits(m, today, |window|, cap) then window
    else match Project(m)
      case Some(e) => window + [e]
      case None => window
  }

  /** The loop itself, over rows given oldest first. */
  function Build(rows: seq<Message>, today: int, cap: nat): (window: seq<Entry>)
    decreases |rows|
    ensures |window| <= |rows|
  {
    if |rows| == 0 then []
    else Step(Build(rows[..|rows| - 1], today, cap), rows[|rows| - 1], today, cap)
  }

  /** The query: the `limit` newest rows of the instance, handed to the loop oldest first. */
  function Fetch(rows: seq<Message>, limit: nat): (fetched: seq<Message>)
    ensures |fetched| <= limit && |fetched| <= |rows|
    ensures |fetched| == limit || |fetched| == |rows|
    ensures fetched == rows[|rows| - |fetched|..]
  {
    if |rows| <= limit then rows else rows[|rows| - limit..]
  }

  /**
   * get_recent_messages over the instance's rows in creation order. With no cap the query
   * is unlimited and the first same-day row makes the comparison with None raise.
   */
  function GetRecentMessages(rows: seq<Message>, today: int, maxMessages: Option<nat>): (r: Result<seq<Entry>, WindowError>)
    ensures r.Err? <==> maxMessages.None? && exists i :: 0 <= i < |rows| && DaysAgo(rows[i], today) == 0
    ensures r.Ok? && maxMessages.Some? ==> |r.value| <= maxMessages.value
    ensures r.Ok? ==> |r.value| <= |rows|
  {
    match maxMessages
    case Some(n) => Ok(Build(Fetch(rows, n), today, n))
    case None =>
      if exists i :: 0 <= i < |rows| && DaysAgo(rows[i], today) == 0 then Err(CapIsNone)
      else Ok(Build(rows, today, 0))
  }

  /** The positions of the rows the loop keeps, in increasing order. */
  function Kept(rows: seq<Message>, today: int, cap: nat): (ks: seq<nat>)
    decreases |rows|
    ensures |ks| <= |rows|
    ensures forall k :: 0 <= k < |ks| ==> ks[k] < |rows|
    ensures forall j, k :: 0 <= j < k < |ks| ==> ks[j] < ks[k]
  {
    if |rows| == 0 then []
    else
      var ks := Kept(rows[..|rows| - 1], today, cap);
      var m := rows[|rows| - 1];
      if Admits(m, today, |ks|, cap) && HasKnownRole(m) then ks + [|rows| - 1] else ks
  }

  /** The row at position i of the rows, placed k-th in the window, meets the age gate and has a known role. */
  predicate GatePassed(rows: seq<Message>, i: nat, k: nat, today: int, cap: nat)
  {
    && i < |rows| && HasKnownRole(rows[i]) && DaysAgo(rows[i], today) <= 7
    && (DaysAgo(rows[i], today) > 0 ==> k < 2)
    && (DaysAgo(rows[i], today) == 0 ==> k < cap)
  }

  /**
   * Kept rows have a known role and are at most seven days old; a row from the past week
   * only ever fills one of the first two places, a same-day row one of the first `cap`.
   */
  lemma {:induction false} KeptRowsPassTheGate(rows: seq<Message>, today: int, cap: nat)
    decreases |rows|
    ensures forall k :: 0 <= k < |Kept(rows, today, cap)| ==> GatePassed(rows, Kept(rows, today, cap)[k], k, today, cap)
  {
    if |rows| > 0 {
      var prefix := rows[..|rows| - 1];
      KeptRowsPassTheGate(prefix, today, cap);
      var ks := Kept(prefix, today, cap);
      var m := rows[|rows| - 1];
      var all := Kept(rows, today, cap);
      assert all == if Admits(m, today, |ks|, cap) && HasKnownRole(m) then ks + [|rows| - 1] else ks;
      forall k | 0 <= k < |all|
        ensures GatePassed(rows, all[k], k, today, cap)
      {
        if k < |ks| {
          assert all[k] == ks[k];
          assert GatePassed(prefix, ks[k], k, today, cap);
          assert rows[ks[k]] == prefix[ks[k]];
        } else {
          assert all[k] == |rows| - 1;
        }
      }
    }
  }

  /** Every future-dated row with a known role is kept: such a row passes the gate uncapped. */
  lemma {:induction false} FutureRowsAreKept(rows: seq<Message>, today: int, cap: nat)
    decreases |rows|
    ensures forall i :: 0 <= i < |rows| && HasKnownRole(rows[i]) && DaysAgo(rows[i], today) < 0 ==>
              i in Kept(rows, today, cap)
  {
    if |rows| > 0 {
      var prefix := rows[..|rows| - 1];
      FutureRowsAreKept(prefix, today, cap);
      assert forall i :: 0 <= i < |prefix| ==> rows[i] == prefix[i];
    }
  }

  /** `window` lists the rows at positions `ks`, in order, each mapped through the role mapping. */
  ghost predicate ProjectsOnto(window: seq<Entry>, rows: seq<Message>, ks: seq<nat>)
  {
    && |window| == |ks|
    && forall k :: 0 <= k < |ks| ==> ks[k] < |rows| && window[k] == Entry(rows[ks[k]].role, Content(rows[ks[k]]))
  }

  /** The window is the kept rows, in order, each mapped through the role mapping. */
  lemma {:induction false} BuildProjectsKept(rows: seq<Message>, today: int, cap: nat)
    decreases |rows|
    ensures ProjectsOnto(Build(rows, today, cap), rows, Kept(rows, today, cap))
  {
    if |rows| > 0 {
      var prefix := rows[..|rows| - 1];
      var m := rows[|rows| - 1];
      BuildProjectsKept(prefix, today, cap);
      var ks := Kept(prefix, today, cap);
      var w := Build(prefix, today, cap);
      assert Build(rows, today, cap) == Step(w, m, today, cap);
      forall k | 0 <= k < |ks|
        ensures rows[ks[k]] == prefix[ks[k]]
      {
      }
      if Admits(m, today, |ks|, cap) && HasKnownRole(m) {
        assert Project(m) == Some(Entry(m.role, Content(m)));
        assert Kept(rows, today, cap) == ks + [|rows| - 1];
        assert Build(rows, today, cap) == w + [Entry(m.role, Content(m))];
      } else {
        assert Kept(rows, today, cap) == ks;
        assert Build(rows, today, cap) == w;
      }
    }
  }

  /** No stale row reaches the window, and neither does a row with another role. */
  lemma WindowRowsAreFreshAndKnown(rows: seq<Message>, today: int, cap: nat)
    ensures |Build(rows, today, cap)| == |Kept(rows, today, cap)|
    ensures forall k :: 0 <= k < |Kept(rows, today, cap)| ==>
              var m := rows[Kept(rows, today, cap)[k]];
              HasKnownRole(m) && DaysAgo(m, today) <= 7 && Build(rows, today, cap)[k] == Entry(m.role, Content(m))
  {
    BuildProjectsKept(rows, today, cap);
    KeptRowsPassTheGate(rows, today, cap);
    forall k | 0 <= k < |Kept(rows, today, cap)|
      ensures GatePassed(rows, Kept(rows, today, cap)[k], k, today, cap)
    {
    }
  }

  /**
   * The same-day cap never fires on fetched rows: the window is never longer than the
   * rows already walked, which are fewer than the cap, so every same-day row with a
   * known role is kept.
   */
  lemma {:induction false} SameDayCapNeverFires(rows: seq<Message>, today: int, cap: nat)
    requires |rows| <= cap
    decreases |rows|
    ensures forall i :: 0 <= i < |rows| && HasKnownRole(rows[i]) && DaysAgo(rows[i], today) == 0 ==>
              i in Kept(rows, today, cap)
  {
    if |rows| > 0 {
      var prefix := rows[..|rows| - 1];
      SameDayCapNeverFires(prefix, today, cap);
      assert forall i :: 0 <= i < |prefix| ==> rows[i] == prefix[i];
    }
  }

  /** Row days never decrease along the sequence: the order the query sorts by. */
  predicate Ascending(rows: seq<Message>)
  {
    forall i, j :: 0 <= i < j < |rows| ==> rows[i].createdDay <= rows[j].createdDay
  }

  /** Entries of the known-role rows from the past week (one to seven days old), in order. */
  function PastWeekEntries(rows: seq<Message>, today: int): seq<Entry>
    decreases |rows|
  {
    if |rows| == 0 then []
    else
      var m := rows[|rows| - 1];
      PastWeekEntries(rows[..|rows| - 1], today)
        + (if 0 < DaysAgo(m, today) <= 7 && HasKnownRole(m) then [Entry(m.role, Content(m))] else [])
  }

  /** Entries of the known-role rows dated today or later, in order. */
  function TodayEntries(rows: seq<Message>, today: int): seq<Entry>
    decreases |rows|
  {
    if |rows| == 0 then []
    else
      var m := rows[|rows| - 1];
      TodayEntries(rows[..|rows| - 1], today)
        + (if DaysAgo(m, today) <= 0 && HasKnownRole(m) then [Entry(m.role, Content(m))] else [])
  }

  function FirstTwo<T>(s: seq<T>): seq<T>
  {
    if |s| <= 2 then s else s[..2]
  }

  lemma {:induction false} NoTodayEntriesInPast(rows: seq<Message>, today: int)
    requires forall i :: 0 <= i < |rows| ==> DaysAgo(rows[i], today) > 0
    decreases |rows|
    ensures TodayEntries(rows, today) == []
  {
    if |rows| > 0 {
      NoTodayEntriesInPast(rows[..|rows| - 1], today);
    }
  }

  lemma {:induction false} NoPastWeekEntriesWhenStale(rows: seq<Message>, today: int)
    requires forall i :: 0 <= i < |rows| ==> DaysAgo(rows[i], today) > 7
    decreases |rows|
    ensures PastWeekEntries(rows, today) == []
  {
    if |rows| > 0 {
      NoPastWeekEntriesWhenStale(rows[..|rows| - 1], today);
    }
  }

  /** The reference window over the rows plus one more row at the end, unfolded one step. */
  lemma {:induction false} ReferenceUnfolds(prefix: seq<Message>, m: Message, today: int, cap: nat)
    ensures var rows := prefix + [m];
            && Build(rows, today, cap) == Step(Build(prefix, today, cap), m, today, cap)
            && PastWeekEntries(rows, today) == PastWeekEntries(prefix, today)
                 + (if 0 < DaysAgo(m, today) <= 7 && HasKnownRole(m) then [Entry(m.role, Content(m))] else [])
            && TodayEntries(rows, today) == TodayEntries(prefix, today)
                 + (if DaysAgo(m, today) <= 0 && HasKnownRole(m) then [Entry(m.role, Content(m))] else [])
  {
    assert (prefix + [m])[..|prefix|] == prefix;
  }

  /** A row from the past, after rows no newer than it, extends the reference window as the loop does. */
  lemma {:induction false} PastRowStep(prefix: seq<Message>, m: Message, today: int, cap: nat)
    requires 0 < DaysAgo(m, today)
    requires forall i :: 0 <= i < |prefix| ==> DaysAgo(prefix[i], today) >= DaysAgo(m, today)
    requires Build(prefix, today, cap) == FirstTwo(PastWeekEntries(prefix, today)) + TodayEntries(prefix, today)
    ensures Build(prefix + [m], today, cap)
            == FirstTwo(PastWeekEntries(prefix + [m], today)) + TodayEntries(prefix + [m], today)
  {
    ReferenceUnfolds(prefix, m, today, cap);
    NoTodayEntriesInPast(prefix, today);
    var past := PastWeekEntries(prefix, today);
    if DaysAgo(m, today) > 7 {
      NoPastWeekEntriesWhenStale(prefix, today);
    } else if HasKnownRole(m) {
      var e := Entry(m.role, Content(m));
      assert Project(m) == Some(e);
      if |past| < 2 {
        assert FirstTwo(past + [e]) == past + [e];
      } else {
        assert FirstTwo(past + [e]) == FirstTwo(past);
      }
    }
  }

  /** A row from today or later, with fewer rows before it than the cap, is appended to the window. */
  lemma {:induction false} TodayRowStep(prefix: seq<Message>, m: Message, today: int, cap: nat)
    requires DaysAgo(m, today) <= 0
    requires |prefix| < cap
    requires Build(prefix, today, cap) == FirstTwo(PastWeekEntries(prefix, today)) + TodayEntries(prefix, today)
    ensures Build(prefix + [m], today, cap)
            == FirstTwo(PastWeekEntries(prefix + [m], today)) + TodayEntries(prefix + [m], today)
  {
    ReferenceUnfolds(prefix, m, today, cap);
    var w := Build(prefix, today, cap);
    if HasKnownRole(m) {
      var e := Entry(m.role, Content(m));
      assert Project(m) == Some(e);
      assert Admits(m, today, |w|, cap);
      assert w + [e] == FirstTwo(PastWeekEntries(prefix, today)) + (TodayEntries(prefix, today) + [e]);
    }
  }

  /**
   * For rows in creation order, no more of them than the cap: the window is the first two
   * past-week entries followed by every entry from today or later.
   */
  lemma {:induction false} WindowMatchesReference(rows: seq<Message>, today: int, cap: nat)
    requires Ascending(rows)
    requires |rows| <= cap
    decreases |rows|
    ensures Build(rows, today, cap) == FirstTwo(PastWeekEntries(rows, today)) + TodayEntries(rows, today)
  {
    if |rows| > 0 {
      var prefix := rows[..|rows| - 1];
      var m := rows[|rows| - 1];
      assert prefix + [m] == rows;
      assert Ascending(prefix);
      WindowMatchesReference(prefix, today, cap);
      if DaysAgo(m, today) > 0 {
        assert forall i :: 0 <= i < |prefix| ==> DaysAgo(prefix[i], today) >= DaysAgo(m, today);
        PastRowStep(prefix, m, today, cap);
      } else {
        TodayRowStep(prefix, m, today, cap);
      }
    }
  }

  /**
   * For an instance whose rows are in creation order and a present cap, the window is the
   * reference window of the `cap` newest rows.
   */
  lemma RecentMessagesMatchReference(rows: seq<Message>, today: int, cap: nat)
    requires Ascending(rows)
    ensures GetRecentMessages(rows, today, Some(cap))
            == Ok(FirstTwo(PastWeekEntries(Fetch(rows, cap), today)) + TodayEntries(Fetch(rows, cap), today))
  {
    var f := Fetch(rows, cap);
    assert forall i :: 0 <= i < |f| ==> f[i] == rows[|rows| - |f| + i];
    WindowMatchesReference(f, today, cap);
  }

  /**
   * Rows aged 10, 8, 3, 1, 0, 0 and 0 days under a cap of two: only the two newest
   * same-day rows are fetched, and both are kept.
   */
  lemma SevenRowExample(today: int, u: Message)
    requires u.role == UserRole
    ensures var rows := [u.(createdDay := today - 10), u.(createdDay := today - 8), u.(createdDay := today - 3),
                         u.(createdDay := today - 1), u.(createdDay := today), u.(createdDay := today),
                         u.(createdDay := today)];
            GetRecentMessages(rows, today, Some(2)) == Ok([Entry(UserRole, u.message), Entry(UserRole, u.message)])
  {
    var rows := [u.(createdDay := today - 10), u.(createdDay := today - 8), u.(createdDay := today - 3),
                 u.(createdDay := today - 1), u.(createdDay := today), u.(createdDay := today),
                 u.(createdDay := today)];
    var f := Fetch(rows, 2);
    var r := u.(createdDay := today);
    var e := Entry(UserRole, u.message);
    assert f == [r, r];
    assert f[..1] == [r];
    assert f[..1][..0] == [];
    assert Build(f[..1], today, 2) == Step([], r, today, 2) == [e];
    assert Build(f, today, 2) == Step([e], r, today, 2) == [e, e];
  }
}
