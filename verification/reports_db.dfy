/**
 * The in-memory report store: a list of community reports held newest-first,
 * plus the counter that supplies the next identifier. Reading the store
 * returns a copy sorted by timestamp, newest first; adding a report stamps it
 * with the next identifier and an initial report count of one.
 *
 * The model passes the store as a value through `Add` (the source shares report
 * objects with callers; the model assumes they are never mutated); the wall clock read
 * by the seed record is the parameter `now` (milliseconds).
 */
module ReportsDB {
  import opened Optional
  import Decimal
  import Keys

  datatype Report = Report(
    id: string,
    kind: string,
    typeLabel: string,
    icon: string,
    description: string,
    location: string,
    photoUrl: Option<string>,
    audioUrl: Option<string>,
    timestamp: int,
    reportCount: int)

  /** What a caller supplies to `Add`: a report without `id` and `reportCount`. */
  datatype Draft = Draft(
    kind: string,
    typeLabel: string,
    icon: string,
    description: string,
    location: string,
    photoUrl: Option<string>,
    audioUrl: Option<string>,
    timestamp: int)

  datatype Store = Store(reports: seq<Report>, nextId: nat)

  /** How long before `now` the seed report is dated: twenty minutes. */
  const SeedAge: int := 20 * 60 * 1000

  /** Limit used by `GetRecent` when the caller gives none. */
  const DefaultRecentLimit: int := 10

  /** Every field of the draft reappears unchanged in the report. */
  predicate CarriesDraft(r: Report, d: Draft) {
    && r.kind == d.kind
    && r.typeLabel == d.typeLabel
    && r.icon == d.icon
    && r.description == d.description
    && r.location == d.location
    && r.photoUrl == d.photoUrl
    && r.audioUrl == d.audioUrl
    && r.timestamp == d.timestamp
  }

  /**
   * The store's invariant: the counter is one past the number of stored
   * reports, the report at position i carries id `String(n - i)` where n is
   * the number of reports (newest first, the seed "1" last), and every stored
   * report has count one.
   */
  predicate Valid(s: Store) {
    && s.nextId == |s.reports| + 1
    && forall i :: 0 <= i < |s.reports| ==>
         s.reports[i].id == Decimal.FromNat(|s.reports| - i) && s.reports[i].reportCount == 1
  }

  predicate DistinctIds(rs: seq<Report>) {
    Keys.Distinct(rs, (r: Report) => r.id)
  }

  /** The store as constructed: the one flooding seed report and counter 2. */
  function Init(now: int): (s: Store)
    ensures |s.reports| == 1 && s.nextId == 2
    ensures s.reports[0].id == "1" && s.reports[0].reportCount == 1
    ensures s.reports[0].timestamp == now - SeedAge
    ensures Valid(s)
  {
    var seed := Report(
      "1", "flooding", "Inundación", "🌊",
      "Nivel de agua alto en la calle principal",
      "El Hormiguero, Valle del Cauca",
      None, None, now - SeedAge, 1);
    assert Decimal.FromNat(1) == "1";
    Store([seed], 2)
  }

  /** `add`: the stored and returned report, and the store after it. */
  function Add(s: Store, d: Draft): (res: (Store, Report))
    ensures var (s', r) := res;
      && r.id == Decimal.FromNat(s.nextId)
      && r.reportCount == 1
      && CarriesDraft(r, d)
      && s'.nextId == s.nextId + 1
      && |s'.reports| == |s.reports| + 1
      && s'.reports[0] == r
      && s'.reports[1..] == s.reports
  {
    var r := Report(Decimal.FromNat(s.nextId), d.kind, d.typeLabel, d.icon,
                    d.description, d.location, d.photoUrl, d.audioUrl, d.timestamp, 1);
    (Store([r] + s.reports, s.nextId + 1), r)
  }

  /** `add` keeps the store's invariant. */
  lemma AddPreservesValid(s: Store, d: Draft)
    requires Valid(s)
    ensures Valid(Add(s, d).0)
  {
    var r := Add(s, d).1;
    var rs := [r] + s.reports;
    assert Add(s, d).0 == Store(rs, s.nextId + 1);
    forall i | 0 <= i < |rs|
      ensures rs[i].id == Decimal.FromNat(|rs| - i) && rs[i].reportCount == 1
    {
      if i > 0 {
        assert rs[i] == s.reports[i - 1];
        assert |s.reports| - (i - 1) == |rs| - i;
      }
    }
  }

  /** In a valid store no two reports share an id. */
  lemma ValidIdsDistinct(s: Store)
    requires Valid(s)
    ensures DistinctIds(s.reports)
  {
    forall i, j | 0 <= i < |s.reports| && 0 <= j < |s.reports| && i != j
      ensures s.reports[i].id != s.reports[j].id
    {
      Decimal.FromNatInjective(|s.reports| - i, |s.reports| - j);
    }
  }

  /**
   * The id `add` hands out is new, and as a number it exceeds the id of
   * every report already stored.
   */
  lemma AddIdFresh(s: Store, d: Draft)
    requires Valid(s)
    ensures var r := Add(s, d).1;
      && Decimal.Canonical(r.id)
      && forall i :: 0 <= i < |s.reports| ==>
           r.id != s.reports[i].id
           && Decimal.ToNat(s.reports[i].id) < Decimal.ToNat(r.id)
  {
    var r := Add(s, d).1;
    assert r.id == Decimal.FromNat(s.nextId);
    StoredIdsBelow(s);
  }

  /** Every stored id, read as a number, is below the counter. */
  lemma StoredIdsBelow(s: Store)
    requires Valid(s)
    ensures forall i :: 0 <= i < |s.reports| ==>
      && s.reports[i].id != Decimal.FromNat(s.nextId)
      && Decimal.ToNat(s.reports[i].id) < Decimal.ToNat(Decimal.FromNat(s.nextId))
  {
    forall i | 0 <= i < |s.reports|
      ensures s.reports[i].id != Decimal.FromNat(s.nextId)
      ensures Decimal.ToNat(s.reports[i].id) < Decimal.ToNat(Decimal.FromNat(s.nextId))
    {
      var k := |s.reports| - i;
      assert s.reports[i].id == Decimal.FromNat(k);
      IdsOrdered(k, s.nextId);
    }
  }

  /** Smaller counters give smaller, hence different, ids. */
  lemma IdsOrdered(a: nat, b: nat)
    requires a < b
    ensures Decimal.ToNat(Decimal.FromNat(a)) < Decimal.ToNat(Decimal.FromNat(b))
    ensures Decimal.FromNat(a) != Decimal.FromNat(b)
  {
    Decimal.ToNatFromNat(a);
    Decimal.ToNatFromNat(b);
  }

  /** The store after adding the drafts in order. */
  function AddAll(s: Store, ds: seq<Draft>): (s': Store)
    ensures |s'.reports| == |s.reports| + |ds|
    ensures s'.nextId == s.nextId + |ds|
    decreases |ds|
  {
    if |ds| == 0 then s else AddAll(Add(s, ds[0]).0, ds[1..])
  }

  /**
   * Every store the application can reach, the seed followed by any
   * sequence of `add` calls, keeps the invariant and so has distinct ids.
   */
  lemma {:induction false} ReachableValid(s: Store, ds: seq<Draft>)
    requires Valid(s)
    ensures Valid(AddAll(s, ds))
    ensures DistinctIds(AddAll(s, ds).reports)
    decreases |ds|
  {
    if |ds| == 0 {
      ValidIdsDistinct(s);
    } else {
      AddPreservesValid(s, ds[0]);
      ReachableValid(Add(s, ds[0]).0, ds[1..]);
    }
  }

  /** Reports in non-increasing timestamp order. */
  predicate NewestFirst(rs: seq<Report>) {
    forall i, j :: 0 <= i < j < |rs| ==> rs[i].timestamp >= rs[j].timestamp
  }

  /** The reports of `rs` stamped at time t, in their order in `rs`. */
  function StampedAt(rs: seq<Report>, t: int): seq<Report> {
    if |rs| == 0 then []
    else (if rs[0].timestamp == t then [rs[0]] else []) + StampedAt(rs[1..], t)
  }

  /**
   * Places r in front of the first report not newer than it, so that r
   * precedes the reports that share its timestamp.
   */
  function Insert(r: Report, rs: seq<Report>): seq<Report> {
    if |rs| == 0 || rs[0].timestamp <= r.timestamp then [r] + rs
    else [rs[0]] + Insert(r, rs[1..])
  }

  /** Inserting into a newest-first list keeps it newest first and adds just r. */
  lemma {:induction false} InsertSorted(r: Report, rs: seq<Report>)
    requires NewestFirst(rs)
    ensures NewestFirst(Insert(r, rs))
    ensures multiset(Insert(r, rs)) == multiset(rs) + multiset{r}
    ensures Insert(r, rs)[0] == r || (|rs| > 0 && Insert(r, rs)[0] == rs[0])
  {
    if |rs| > 0 && rs[0].timestamp > r.timestamp {
      var tail := Insert(r, rs[1..]);
      InsertSorted(r, rs[1..]);
      assert rs == [rs[0]] + rs[1..];
      PrependNewest(rs[0], tail);
    } else {
      PrependNewest(r, rs);
    }
  }

  /** Putting a report no older than the head in front keeps a list newest first. */
  lemma PrependNewest(x: Report, xs: seq<Report>)
    requires NewestFirst(xs)
    requires |xs| > 0 ==> x.timestamp >= xs[0].timestamp
    ensures NewestFirst([x] + xs)
  {
    var ys := [x] + xs;
    forall i, j | 0 <= i < j < |ys| ensures ys[i].timestamp >= ys[j].timestamp {
      if i == 0 {
        assert ys[j] == xs[j - 1];
        assert xs[0].timestamp >= xs[j - 1].timestamp;
      } else {
        assert ys[i] == xs[i - 1] && ys[j] == xs[j - 1];
      }
    }
  }

  /** A stable sort by timestamp, newest first, as `getAll`'s comparator orders. */
  function SortNewestFirst(rs: seq<Report>): (out: seq<Report>)
    ensures NewestFirst(out)
    ensures multiset(out) == multiset(rs)
  {
    if |rs| == 0 then []
    else
      assert rs == [rs[0]] + rs[1..];
      InsertSorted(rs[0], SortNewestFirst(rs[1..]));
      Insert(rs[0], SortNewestFirst(rs[1..]))
  }

  lemma StampedAtCons(x: Report, xs: seq<Report>, t: int)
    ensures StampedAt([x] + xs, t) == (if x.timestamp == t then [x] else []) + StampedAt(xs, t)
  {
    assert ([x] + xs)[1..] == xs;
  }

  lemma {:induction false} InsertStable(r: Report, rs: seq<Report>, t: int)
    ensures StampedAt(Insert(r, rs), t)
         == (if r.timestamp == t then [r] else []) + StampedAt(rs, t)
  {
    if |rs| == 0 || rs[0].timestamp <= r.timestamp {
      StampedAtCons(r, rs, t);
    } else {
      var tail := Insert(r, rs[1..]);
      InsertStable(r, rs[1..], t);
      StampedAtCons(rs[0], tail, t);
      if r.timestamp == t {
        assert rs[0].timestamp != t;
      } else {
        assert [] + StampedAt(rs[1..], t) == StampedAt(rs[1..], t);
      }
    }
  }

  /** Reports sharing a timestamp keep their stored relative order. */
  lemma {:induction false} SortStable(rs: seq<Report>, t: int)
    ensures StampedAt(SortNewestFirst(rs), t) == StampedAt(rs, t)
  {
    if |rs| > 0 {
      SortStable(rs[1..], t);
      InsertStable(rs[0], SortNewestFirst(rs[1..]), t);
    }
  }

  /** `getAll`: a fresh copy of the stored reports, newest first. */
  function GetAll(s: Store): (out: seq<Report>)
    ensures NewestFirst(out)
    ensures multiset(out) == multiset(s.reports)
    ensures |out| == |s.reports|
  {
    var out := SortNewestFirst(s.reports);
    assert |out| == |multiset(out)|;
    out
  }

  /** `getAll` is a stable sort: equal timestamps keep their stored order. */
  lemma GetAllStable(s: Store, t: int)
    ensures StampedAt(GetAll(s), t) == StampedAt(s.reports, t)
  {
    SortStable(s.reports, t);
  }

  /**
   * The end position `Array.prototype.slice(0, end)` stops at on a list of
   * length n: a negative end counts back from the end of the list.
   */
  function SliceEnd(n: nat, end: int): (k: nat)
    ensures k <= n
    ensures end >= 0 ==> k == if end < n then end else n
    ensures end < 0 ==> k == if n + end > 0 then n + end else 0
  {
    if end < 0 then (if n + end > 0 then n + end else 0)
    else if end < n then end
    else n
  }

  /** `getRecent(limit)`, with `None` standing for an omitted limit. */
  function GetRecent(s: Store, limit: Option<int>): (out: seq<Report>)
    ensures var all := GetAll(s);
      var lim := if limit.Some? then limit.value else DefaultRecentLimit;
      && |out| == SliceEnd(|all|, lim)
      && out == all[..|out|]
  {
    var all := GetAll(s);
    var lim := if limit.Some? then limit.value else DefaultRecentLimit;
    all[..SliceEnd(|all|, lim)]
  }

  /** With no limit given, at most the ten newest reports are returned. */
  lemma GetRecentDefault(s: Store)
    ensures |GetRecent(s, None)| == if |s.reports| < 10 then |s.reports| else 10
    ensures GetRecent(s, None) == GetRecent(s, Some(10))
  {
  }
}
