/** The admin dashboard's registration statistics: how many registrations are
    paid, want a day-1 meal, want a day-2 meal and attend the banquet. */
module Dashboard {
  import opened Values
  import opened Seqs
  import opened Registrations

  /** The dashboard asks the registrations API for at most this many documents. */
  const QueryLimit: nat := 1000

  datatype Stats = Stats(totalPaid: nat, day1Meals: nat, day2Meals: nat, banquetAttendance: nat) {
    function Plus(other: Stats): Stats {
      Stats(totalPaid + other.totalPaid, day1Meals + other.day1Meals,
            day2Meals + other.day2Meals, banquetAttendance + other.banquetAttendance)
    }

    /** Every counter is at most `n`. */
    predicate AtMost(n: nat) {
      totalPaid <= n && day1Meals <= n && day2Meals <= n && banquetAttendance <= n
    }
  }

  /** The reducer's initial accumulator. */
  const Zero: Stats := Stats(0, 0, 0, 0)

  /** Each counter compares with `===`, so a missing value is never counted. */
  predicate IsPaid(d: Registration) { d.paymentStatus == Str("paid") }
  predicate WantsDay1Meal(d: Registration) { d.mealDay1 == Str("yes") }
  predicate WantsDay2Meal(d: Registration) { d.mealDay2 == Str("yes") }
  predicate AttendsBanquet(d: Registration) { d.banquet == Str("yes") }

  /** The reducer callback: one document's contribution added to the accumulator. */
  function Tally(acc: Stats, d: Registration): Stats {
    Stats(
      acc.totalPaid + (if IsPaid(d) then 1 else 0),
      acc.day1Meals + (if WantsDay1Meal(d) then 1 else 0),
      acc.day2Meals + (if WantsDay2Meal(d) then 1 else 0),
      acc.banquetAttendance + (if AttendsBanquet(d) then 1 else 0))
  }

  /** `docs.reduce(Tally, acc)`, a left fold. */
  function Reduce(acc: Stats, docs: seq<Registration>): Stats
    decreases |docs|
  {
    if |docs| == 0 then acc else Reduce(Tally(acc, docs[0]), docs[1..])
  }

  /** The reference definition: each counter is the number of matching documents. */
  function Counts(docs: seq<Registration>): Stats {
    Stats(
      |Filter(docs, IsPaid)|,
      |Filter(docs, WantsDay1Meal)|,
      |Filter(docs, WantsDay2Meal)|,
      |Filter(docs, AttendsBanquet)|)
  }

  /** The fold adds the counts of the scanned documents to its start value. */
  lemma {:induction false} ReduceAddsCounts(acc: Stats, docs: seq<Registration>)
    ensures Reduce(acc, docs) == acc.Plus(Counts(docs))
    decreases |docs|
  {
    if |docs| > 0 {
      var d := docs[0];
      var rest := docs[1..];
      calc {
        Reduce(acc, docs);
        Reduce(Tally(acc, d), rest);
        { ReduceAddsCounts(Tally(acc, d), rest); }
        Tally(acc, d).Plus(Counts(rest));
        { TallyIsCount(acc, d); }
        acc.Plus(Counts([d])).Plus(Counts(rest));
        { PlusAssociates(acc, Counts([d]), Counts(rest)); }
        acc.Plus(Counts([d]).Plus(Counts(rest)));
        { assert docs == [d] + rest; CountsConcat([d], rest); }
        acc.Plus(Counts(docs));
      }
    }
  }

  lemma PlusAssociates(a: Stats, b: Stats, c: Stats)
    ensures a.Plus(b).Plus(c) == a.Plus(b.Plus(c))
  {
  }

  lemma TallyIsCount(acc: Stats, d: Registration)
    ensures Tally(acc, d) == acc.Plus(Counts([d]))
  {
    assert [d][1..] == [];
  }

  lemma CountsConcat(a: seq<Registration>, b: seq<Registration>)
    ensures Counts(a + b) == Counts(a).Plus(Counts(b))
  {
    FilterCountConcat(a, b, IsPaid);
    FilterCountConcat(a, b, WantsDay1Meal);
    FilterCountConcat(a, b, WantsDay2Meal);
    FilterCountConcat(a, b, AttendsBanquet);
  }

  /** The statistics of a list of documents: exactly the number of paid
      registrations and of "yes" answers per question, none above the list's length. */
  function ComputeStats(docs: seq<Registration>): (r: Stats)
    ensures r == Counts(docs)
    ensures r.AtMost(|docs|)
    ensures docs == [] ==> r == Zero
  {
    ReduceAddsCounts(Zero, docs);
    Reduce(Zero, docs)
  }

  /** Statistics of a concatenation are the sums of the parts' statistics. */
  lemma StatsConcat(a: seq<Registration>, b: seq<Registration>)
    ensures ComputeStats(a + b) == ComputeStats(a).Plus(ComputeStats(b))
  {
    CountsConcat(a, b);
  }

  /** The order in which the API returns documents does not matter. */
  lemma StatsPermutation(a: seq<Registration>, b: seq<Registration>)
    requires multiset(a) == multiset(b)
    ensures ComputeStats(a) == ComputeStats(b)
  {
    FilterCountPermutation(a, b, IsPaid);
    FilterCountPermutation(a, b, WantsDay1Meal);
    FilterCountPermutation(a, b, WantsDay2Meal);
    FilterCountPermutation(a, b, AttendsBanquet);
  }

  /** What `fetch('/api/registrations?limit=1000')` yields: a response, ok or
      not, over the stored collection, or a thrown network error. */
  datatype FetchOutcome = Responded(ok: bool, collection: seq<Registration>) | NetworkError

  /** The dashboard's `stats` after loading: set only from an ok response,
      computed over the first `QueryLimit` documents; otherwise it stays `null`. */
  function LoadStats(outcome: FetchOutcome): (r: Option<Stats>)
    ensures r.Some? <==> outcome.Responded? && outcome.ok
    ensures r.Some? ==> r.value == Counts(Take(outcome.collection, QueryLimit))
    ensures r.Some? ==> r.value.AtMost(QueryLimit)
  {
    match outcome
    case NetworkError => None
    case Responded(ok, collection) =>
      if ok then Some(ComputeStats(Take(collection, QueryLimit))) else None
  }

  /** Documents beyond the first `QueryLimit` never reach the statistics. */
  lemma OnlyFirstThousandCounted(collection: seq<Registration>, extra: seq<Registration>)
    requires |collection| >= QueryLimit
    ensures LoadStats(Responded(true, collection + extra)) == LoadStats(Responded(true, collection))
  {
    assert Take(collection + extra, QueryLimit) == Take(collection, QueryLimit);
  }
}
