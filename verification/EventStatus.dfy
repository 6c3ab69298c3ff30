/**
 Communication statuses of a DDS entity (section 2.2.4.1 of OMG DDS 1.4), the
 transitions that change them, and the accounting that rmw_zzdds keeps of them:
 a stored status is updated from a freshly read one by the difference of their
 counts.

 Statuses are tied to a history: the sequence of all the transitions the DDS
 library has made for one entity and one kind of status.
 */
module EventStatus {
  const INT32_LIMIT: nat := 0x8000_0000
  const SIZE_LIMIT: nat := 0x1_0000_0000_0000_0000

  /** A conversion of a signed integer to size_t. */
  function SizeT(x: int): nat {
    if 0 <= x < SIZE_LIMIT then x else x % SIZE_LIMIT
  }

  datatype EventType =
    | PublicationMatched | LivelinessLost | OfferedDeadlineMissed | OfferedQosIncompatible
    | SubscriptionMatched | LivelinessChanged | RequestedDeadlineMissed
    | RequestedQosIncompatible | MessageLost

  /** The four shapes of status structure. */
  datatype Kind = Matching | Liveness | Counting | CountingLast

  function KindOf(t: EventType): Kind {
    match t
    case PublicationMatched | SubscriptionMatched => Matching
    case LivelinessChanged => Liveness
    case LivelinessLost | MessageLost => Counting
    case OfferedDeadlineMissed | RequestedDeadlineMissed => CountingLast
    case OfferedQosIncompatible | RequestedQosIncompatible => CountingLast
  }

  /** Every kind but liveliness changed has an exact number of events. */
  predicate Exact(k: Kind) {
    k != Liveness
  }

  /** An instance handle, or the last policy id of an incompatible-QoS status. */
  type Handle = int

  /** The two counters of a status; a status with one counter leaves the second 0. */
  datatype Pair = Pair(first: int, second: int) {
    function Plus(p: Pair): Pair { Pair(first + p.first, second + p.second) }
    function Minus(p: Pair): Pair { Pair(first - p.first, second - p.second) }
  }

  datatype Status =
    | MatchedStatus(total: int, totalChange: int, current: int, currentChange: int, last: Handle)
    | LivelinessStatus(alive: int, aliveChange: int, notAlive: int, notAliveChange: int, last: Handle)
    | CountStatus(total: int, totalChange: int)
    | CountLastStatus(total: int, totalChange: int, last: Handle)
  {
    function Kind(): Kind {
      match this
      case MatchedStatus(_, _, _, _, _) => Matching
      case LivelinessStatus(_, _, _, _, _) => Liveness
      case CountStatus(_, _) => Counting
      case CountLastStatus(_, _, _) => CountingLast
    }

    function Counts(): Pair {
      match this
      case MatchedStatus(t, _, c, _, _) => Pair(t, c)
      case LivelinessStatus(a, _, n, _, _) => Pair(a, n)
      case CountStatus(t, _) => Pair(t, 0)
      case CountLastStatus(t, _, _) => Pair(t, 0)
    }

    function Changes(): Pair {
      match this
      case MatchedStatus(_, t, _, c, _) => Pair(t, c)
      case LivelinessStatus(_, a, _, n, _) => Pair(a, n)
      case CountStatus(_, t) => Pair(t, 0)
      case CountLastStatus(_, t, _) => Pair(t, 0)
    }

    /** The status as it is right after a take. */
    function WithoutChanges(): Status {
      match this
      case MatchedStatus(t, _, c, _, l) => MatchedStatus(t, 0, c, 0, l)
      case LivelinessStatus(a, _, n, _, l) => LivelinessStatus(a, 0, n, 0, l)
      case CountStatus(t, _) => CountStatus(t, 0)
      case CountLastStatus(t, _, l) => CountLastStatus(t, 0, l)
    }
  }

  /** A zero-initialised status of kind k. */
  function Zero(k: Kind): Status {
    match k
    case Matching => MatchedStatus(0, 0, 0, 0, 0)
    case Liveness => LivelinessStatus(0, 0, 0, 0, 0)
    case Counting => CountStatus(0, 0)
    case CountingLast => CountLastStatus(0, 0, 0)
  }

  /** Adds to `stored` what changed between it and `now`; the *_change fields of
      `now` are not used. The last field of a counting status is copied only
      when its count moves. */
  function AddChanges(stored: Status, now: Status): (r: Status)
    requires stored.Kind() == now.Kind()
    ensures r.Kind() == stored.Kind()
  {
    match stored
    case MatchedStatus(_, _, _, _, _) =>
      MatchedStatus(
        now.total, stored.totalChange + (now.total - stored.total),
        now.current, stored.currentChange + (now.current - stored.current), now.last)
    case LivelinessStatus(_, _, _, _, _) =>
      LivelinessStatus(
        now.alive, stored.aliveChange + (now.alive - stored.alive),
        now.notAlive, stored.notAliveChange + (now.notAlive - stored.notAlive), now.last)
    case CountStatus(_, _) =>
      CountStatus(now.total, stored.totalChange + (now.total - stored.total))
    case CountLastStatus(_, _, _) =>
      CountLastStatus(
        now.total, stored.totalChange + (now.total - stored.total),
        if now.total != stored.total then now.last else stored.last)
  }

  function Abs(x: int): nat {
    if x < 0 then -x else x
  }

  /** Number of events behind the untaken changes of a stored status, with the
      source's conversions to size_t. For liveliness changed it is an estimate. */
  function UntakenEvents(s: Status): nat {
    match s
    case MatchedStatus(_, t, _, c, _) => SizeT(SizeT(t) + SizeT(t - c))
    case LivelinessStatus(_, a, _, n, _) => SizeT(if Abs(a) < Abs(n) then Abs(n) else Abs(a))
    case CountStatus(_, t) => SizeT(t)
    case CountLastStatus(_, t, _) => SizeT(t)
  }

  // ---------------------------------------------------------------------------
  // Histories

  /** One transition of an entity's status, with the value its last field has
      afterwards. */
  datatype Change =
    | Match(last: Handle)
    | Unmatch(last: Handle)
    | Occurrence(last: Handle)
    | Appears(last: Handle)        // a writer becomes known, alive
    | Lapses(last: Handle)         // an alive writer becomes not alive
    | Revives(last: Handle)        // a not alive writer becomes alive
    | LeavesAlive(last: Handle)    // an alive writer disappears
    | LeavesNotAlive(last: Handle) // a not alive writer disappears
  {
    function Delta(): Pair {
      match this
      case Match(_) => Pair(1, 1)
      case Unmatch(_) => Pair(0, -1)
      case Occurrence(_) => Pair(1, 0)
      case Appears(_) => Pair(1, 0)
      case Lapses(_) => Pair(-1, 1)
      case Revives(_) => Pair(1, -1)
      case LeavesAlive(_) => Pair(-1, 0)
      case LeavesNotAlive(_) => Pair(0, -1)
    }

    predicate IsOf(k: Kind) {
      match k
      case Matching => Match? || Unmatch?
      case Liveness => Appears? || Lapses? || Revives? || LeavesAlive? || LeavesNotAlive?
      case Counting | CountingLast => Occurrence?
    }
  }

  type History = seq<Change>

  /** zzdds's cumulative counts after the first n transitions of h. */
  function CountsAt(h: History, n: nat): Pair
    requires n <= |h|
  {
    if n == 0 then Pair(0, 0) else CountsAt(h, n - 1).Plus(h[n - 1].Delta())
  }

  function LastAt(h: History, n: nat): Handle
    requires n <= |h|
  {
    if n == 0 then 0 else h[n - 1].last
  }

  predicate OfKind(k: Kind, h: History) {
    forall i | 0 <= i < |h| :: h[i].IsOf(k)
  }

  /** zzdds never unmatches or removes an endpoint that is not there. */
  predicate NonNegative(h: History) {
    forall n: nat | n <= |h| :: CountsAt(h, n).first >= 0 && CountsAt(h, n).second >= 0
  }

  /** The status whose counts are those after `read` transitions and whose
      changes are those since the first `taken` ones. */
  function StatusBetween(k: Kind, h: History, taken: nat, read: nat): (s: Status)
    requires taken <= |h| && read <= |h|
    ensures s.Kind() == k
  {
    var now := CountsAt(h, read);
    var change := now.Minus(CountsAt(h, taken));
    match k
    case Matching => MatchedStatus(now.first, change.first, now.second, change.second, LastAt(h, read))
    case Liveness => LivelinessStatus(now.first, change.first, now.second, change.second, LastAt(h, read))
    case Counting => CountStatus(now.first, change.first)
    case CountingLast => CountLastStatus(now.first, change.first, LastAt(h, read))
  }

  /** `now` is what a zzdds status getter returns after the history h. Its own
      *_change fields are anything. */
  predicate Reports(now: Status, k: Kind, h: History) {
    && now.Kind() == k
    && now.Counts() == StatusBetween(k, h, |h|, |h|).Counts()
    && (!now.CountStatus? ==> now.last == LastAt(h, |h|))
  }

  // ---------------------------------------------------------------------------
  // What a stored status says about the history

  lemma {:induction false} CountingTotals(k: Kind, h: History, n: nat)
    requires k == Counting || k == CountingLast
    requires OfKind(k, h) && n <= |h|
    ensures CountsAt(h, n) == Pair(n, 0)
  {
    if n > 0 {
      CountingTotals(k, h, n - 1);
      assert h[n - 1].IsOf(k);
    }
  }

  /** Each match raises both counts and each unmatch lowers the second one, so
      the number of transitions is matches plus unmatches, and neither number
      ever falls. */
  lemma {:induction false} MatchingTotals(h: History, i: nat, j: nat)
    requires i <= j <= |h| && OfKind(Matching, h)
    ensures var p, q := CountsAt(h, i), CountsAt(h, j);
            && (q.first - p.first) + ((q.first - q.second) - (p.first - p.second)) == j - i
            && p.first <= q.first && p.first - p.second <= q.first - q.second
    decreases j
  {
    if i < j {
      MatchingTotals(h, i, j - 1);
      assert h[j - 1].IsOf(Matching);
    }
  }

  /** No count moves by more than the number of transitions. */
  lemma {:induction false} CountsMoveSlowly(h: History, i: nat, j: nat)
    requires i <= j <= |h|
    ensures var d := CountsAt(h, j).Minus(CountsAt(h, i));
            Abs(d.first) <= j - i && Abs(d.second) <= j - i
    decreases j
  {
    if i < j {
      CountsMoveSlowly(h, i, j - 1);
    }
  }

  /** For an exact status the untaken events are exactly the transitions since
      the last take: nothing is negative before its conversion to size_t and
      nothing wraps. */
  lemma UntakenExact(k: Kind, h: History, taken: nat, read: nat)
    requires OfKind(k, h) && Exact(k)
    requires taken <= read <= |h| < INT32_LIMIT
    ensures var s := StatusBetween(k, h, taken, read);
            && UntakenEvents(s) == read - taken
            && 0 <= s.Changes().first <= read - taken
            && (k == Matching ==> 0 <= s.Changes().first - s.Changes().second)
  {
    hide CountsAt;
    if k == Matching {
      MatchingTotals(h, taken, read);
    } else {
      CountingTotals(k, h, taken);
      CountingTotals(k, h, read);
    }
  }

  /** The liveliness estimate is the larger of the two changes, whichever way they
      went; so it is zero only when nothing changed. */
  lemma EstimateIsLargest(alive: int, aliveChange: int, notAlive: int, notAliveChange: int, last: Handle)
    requires -0x8000_0000 <= aliveChange < 0x8000_0000 && -0x8000_0000 <= notAliveChange < 0x8000_0000
    ensures var n := UntakenEvents(LivelinessStatus(alive, aliveChange, notAlive, notAliveChange, last));
            && aliveChange <= n && -aliveChange <= n && notAliveChange <= n && -notAliveChange <= n
            && (n == aliveChange || n == -aliveChange || n == notAliveChange || n == -notAliveChange)
            && (n == 0 <==> aliveChange == 0 && notAliveChange == 0)
  {
  }

  /** The liveliness estimate never exceeds the number of transitions. */
  lemma EstimateBounded(h: History, taken: nat, read: nat)
    requires taken <= read <= |h| < INT32_LIMIT
    ensures UntakenEvents(StatusBetween(Liveness, h, taken, read)) <= read - taken
  {
    hide CountsAt;
    CountsMoveSlowly(h, taken, read);
  }

  /** Reading zzdds moves the stored status to the whole history and keeps its
      changes relative to the last take, whatever zzdds's own *_change fields
      say and however far behind the stored status was. */
  lemma AddChangesCatchesUp(k: Kind, h: History, taken: nat, read: nat, now: Status)
    requires OfKind(k, h)
    requires taken <= read <= |h|
    requires Reports(now, k, h)
    ensures AddChanges(StatusBetween(k, h, taken, read), now) == StatusBetween(k, h, taken, |h|)
  {
    hide CountsAt;
    if k == CountingLast {
      CountingTotals(k, h, read);
      CountingTotals(k, h, |h|);
    }
  }

  lemma {:induction false} CountsIgnoreFuture(h: History, c: Change, n: nat)
    requires n <= |h|
    ensures CountsAt(h + [c], n) == CountsAt(h, n)
  {
    if n > 0 {
      CountsIgnoreFuture(h, c, n - 1);
    }
  }

  /** A stored status does not depend on transitions that have not been read. */
  lemma StatusIgnoresFuture(k: Kind, h: History, c: Change, taken: nat, read: nat)
    requires taken <= |h| && read <= |h|
    ensures StatusBetween(k, h + [c], taken, read) == StatusBetween(k, h, taken, read)
  {
    hide CountsAt;
    CountsIgnoreFuture(h, c, read);
    CountsIgnoreFuture(h, c, taken);
  }

  lemma ChangesAreDifferences(k: Kind, h: History, taken: nat, read: nat)
    requires taken <= read <= |h|
    requires OfKind(k, h)
    ensures var s := StatusBetween(k, h, taken, read);
            s.Counts() == CountsAt(h, read) && s.Changes() == CountsAt(h, read).Minus(CountsAt(h, taken))
  {
    hide CountsAt;
    if k == Counting || k == CountingLast {
      CountingTotals(k, h, taken);
      CountingTotals(k, h, read);
    }
  }

  /** What liveliness_changed_listener compares: the stored counts minus the
      stored changes are the counts at the last take. */
  lemma BaselineIsLastTake(k: Kind, h: History, taken: nat, read: nat)
    requires taken <= read <= |h|
    requires OfKind(k, h)
    ensures var s := StatusBetween(k, h, taken, read);
            s.Counts().Minus(s.Changes()) == CountsAt(h, taken)
  {
    hide CountsAt;
    ChangesAreDifferences(k, h, taken, read);
  }

  /** A take leaves the status as it was read, with nothing untaken. */
  lemma TakenStatus(k: Kind, h: History, taken: nat, read: nat)
    requires taken <= read <= |h|
    ensures StatusBetween(k, h, taken, read).WithoutChanges() == StatusBetween(k, h, read, read)
  {
    hide CountsAt;
  }

  lemma CountsOfExtension(h: History, c: Change)
    ensures CountsAt(h + [c], |h| + 1) == CountsAt(h, |h|).Plus(c.Delta())
  {
    CountsIgnoreFuture(h, c, |h|);
  }

  lemma NonNegativeExtends(h: History, c: Change)
    requires NonNegative(h)
    requires var p := CountsAt(h, |h|).Plus(c.Delta()); p.first >= 0 && p.second >= 0
    ensures NonNegative(h + [c])
  {
    hide CountsAt;
    CountsOfExtension(h, c);
    forall n: nat | n <= |h| + 1
      ensures CountsAt(h + [c], n).first >= 0 && CountsAt(h + [c], n).second >= 0
    {
      if n <= |h| {
        CountsIgnoreFuture(h, c, n);
      }
    }
  }
}
