/** The richer test environment, `MTEnv`: tests with integer ids, records with an
    optional reason and a printable flag, four assertions built on one
    `expect` primitive, and a report that counts tests. */
module MTest {
  import Text
  import opened Percent
  import B = Buckets

  /** The outcome of one assertion. */
  datatype Record = Record(pass: bool, printable: bool, reason: Option<string>)

  /** One assertion call a test body makes on the environment. */
  datatype Assertion =
    | Eq(l: int, r: int, printable: bool)      // expect_eq(l, r, printable)
    | Neq(l: int, r: int, printable: bool)     // expect_neq(l, r, printable)
    | IsTrue(v: bool, printable: bool)         // expect_true(v, printable)
    | IsFalse(v: bool, printable: bool)        // expect_false(v, printable)
    | Custom(holds: bool, reason: string, printable: bool)
      // expect(args..., reason, c, printable), with holds the comparator's verdict c(args...)

  /** A registered test; its body is the list of assertions it makes, in order. */
  datatype Test = Test(id: int, name: string, feedback: string, body: seq<Assertion>)

  /** One `(name, feedback, function)` tuple handed to `add_test`. */
  datatype Entry = Entry(name: string, feedback: string, body: seq<Assertion>)

  function ReasonOr(reason: Option<string>, default: string): string {
    match reason
    case Some(s) => s
    case None => default
  }

  /** The text `operator<<` writes for a record (colour codes left out). */
  function RecordText(rec: Record): string {
    if !rec.pass && rec.printable then
      "  [TEST CASE FAILED]\n    Reason: " + ReasonOr(rec.reason, "no provided")
    else
      ""
  }

  /** A record writes text iff it failed and is printable, and that text ends
      with the stored reason, or with "no provided" when there is none. */
  lemma RecordTextShape(rec: Record)
    ensures RecordText(rec) != "" <==> !rec.pass && rec.printable
    ensures RecordText(rec) != "" ==>
      var tail := ReasonOr(rec.reason, "no provided");
      |RecordText(rec)| >= |tail| && RecordText(rec)[|RecordText(rec)| - |tail|..] == tail
  {
  }

  /** The record the generic `expect` files: a pass carries no reason, a
      failure carries the supplied reason followed by a line break. */
  function ExpectRecord(holds: bool, reason: string, printable: bool): (rec: Record)
    ensures rec.pass == holds && rec.printable == printable
    ensures rec.pass <==> rec.reason.None?
  {
    if holds then Record(true, printable, None)
    else Record(false, printable, Some(reason + "\n"))
  }

  /** A failing record's reason is the supplied message followed by a line break. */
  lemma ExpectRecordReason(holds: bool, reason: string, printable: bool)
    requires !holds
    ensures ExpectRecord(holds, reason, printable).reason == Some(reason + "\n")
  {
  }

  /** The comparator each assertion hands to `expect`. */
  function Holds(a: Assertion): bool {
    match a
    case Eq(l, r, _) => l == r
    case Neq(l, r, _) => l != r
    case IsTrue(v, _) => v == true
    case IsFalse(v, _) => v == false
    case Custom(h, _, _) => h
  }

  /** The reason each assertion hands to `expect`. */
  function FailureReason(a: Assertion): string {
    match a
    case Eq(l, r, _) => Text.IntToString(l) + " != " + Text.IntToString(r)
    case Neq(l, r, _) => Text.IntToString(l) + " == " + Text.IntToString(r)
    case IsTrue(_, _) => "value is false"
    case IsFalse(_, _) => "value is true"
    case Custom(_, reason, _) => reason
  }

  /** The record one assertion files. */
  function Outcome(a: Assertion): (rec: Record)
    ensures rec.pass == Holds(a) && rec.printable == a.printable
    ensures a.Eq? ==> (rec.pass <==> a.l == a.r)
    ensures a.Neq? ==> (rec.pass <==> a.l != a.r)
    ensures a.IsTrue? ==> (rec.pass <==> a.v)
    ensures a.IsFalse? ==> (rec.pass <==> !a.v)
    ensures a.Custom? ==> (rec.pass <==> a.holds)
    ensures rec.pass <==> rec.reason.None?
  {
    ExpectRecord(Holds(a), FailureReason(a), a.printable)
  }

  /** The reason a failing assertion files: both operands for the comparisons,
      a fixed message for the truth checks, each ended by a line break. */
  lemma OutcomeReason(a: Assertion)
    requires !Outcome(a).pass
    ensures a.Eq? ==>
      Outcome(a).reason == Some(Text.IntToString(a.l) + " != " + Text.IntToString(a.r) + "\n")
    ensures a.Neq? ==>
      Outcome(a).reason == Some(Text.IntToString(a.l) + " == " + Text.IntToString(a.r) + "\n")
    ensures a.IsTrue? ==> Outcome(a).reason == Some("value is false" + "\n")
    ensures a.IsFalse? ==> Outcome(a).reason == Some("value is true" + "\n")
    ensures a.Custom? ==> Outcome(a).reason == Some(a.reason + "\n")
  {
  }

  /** The records a body files, one per assertion, in order. */
  function Outcomes(body: seq<Assertion>): (rs: seq<Record>)
    ensures |rs| == |body|
    decreases |body|
  {
    if body == [] then []
    else
      var n := |body| - 1;
      Outcomes(body[..n]) + [Outcome(body[n])]
  }

  /** The record at position `i` passes iff the assertion at position `i` held. */
  lemma {:induction false} OutcomesPass(body: seq<Assertion>, i: nat)
    requires i < |body|
    ensures Outcomes(body)[i].pass <==> Holds(body[i])
    decreases |body|
  {
    var n := |body| - 1;
    if i < n {
      OutcomesPass(body[..n], i);
      OutcomesKeepsEarlier(body, i);
    } else {
      OutcomesLast(body);
    }
  }

  /** The outcome at an earlier position is the one the body without its last assertion gives. */
  lemma OutcomesKeepsEarlier(body: seq<Assertion>, i: nat)
    requires i < |body| - 1
    ensures Outcomes(body)[i] == Outcomes(body[..|body| - 1])[i]
    ensures body[..|body| - 1][i] == body[i]
  {
  }

  /** The last outcome is the last assertion's. */
  lemma OutcomesLast(body: seq<Assertion>)
    requires body != []
    ensures Outcomes(body)[|body| - 1].pass <==> Holds(body[|body| - 1])
  {
  }

  lemma OutcomesPrefix(body: seq<Assertion>, i: nat)
    requires i < |body|
    ensures Outcomes(body[..i + 1]) == Outcomes(body[..i]) + [Outcome(body[i])]
  {
    assert body[..i + 1][..i] == body[..i];
  }

  /** The failure reason of `expect_eq` and of `expect_neq` renders both
      operands: two failures with the same reason compared the same values. */
  lemma ComparisonReasonDeterminesOperands(a1: Assertion, a2: Assertion)
    requires (a1.Eq? && a2.Eq?) || (a1.Neq? && a2.Neq?)
    requires !Outcome(a1).pass && !Outcome(a2).pass
    requires Outcome(a1).reason == Outcome(a2).reason
    ensures a1.l == a2.l && a1.r == a2.r
  {
    var op := if a1.Eq? then " != " else " == ";
    var x1, y1 := Text.IntToString(a1.l), Text.IntToString(a1.r);
    var x2, y2 := Text.IntToString(a2.l), Text.IntToString(a2.r);
    OutcomeReason(a1);
    OutcomeReason(a2);
    Text.IntToStringShape(a1.l);
    Text.IntToStringShape(a2.l);
    assert x1 + op + y1 + "\n" == x2 + op + y2 + "\n";
    SplitReason(x1, y1, x2, y2, op);
    Text.IntToStringInjective(a1.l, a2.l);
    Text.IntToStringInjective(a1.r, a2.r);
  }

  lemma SplitReason(x1: string, y1: string, x2: string, y2: string, op: string)
    requires |op| == 4 && op[0] == ' '
    requires ' ' !in x1 && ' ' !in x2
    requires x1 + op + y1 + "\n" == x2 + op + y2 + "\n"
    ensures x1 == x2 && y1 == y2
  {
    var rest1, rest2 := op[1..] + y1 + "\n", op[1..] + y2 + "\n";
    assert x1 + op + y1 + "\n" == x1 + [' '] + rest1;
    assert x2 + op + y2 + "\n" == x2 + [' '] + rest2;
    Text.SplitAtSeparator(x1, rest1, x2, rest2, ' ');
    assert y1 == rest1[3..|rest1| - 1];
    assert y2 == rest2[3..|rest2| - 1];
  }

  /** Number of failing records in `rs`, as the report's `failedRecord` counts them. */
  function FailedCount(rs: seq<Record>): nat
    decreases |rs|
  {
    if rs == [] then 0
    else FailedCount(rs[..|rs| - 1]) + (if rs[|rs| - 1].pass then 0 else 1)
  }

  /** A test passes iff none of its records failed. */
  lemma {:induction false} FailedCountZeroIff(rs: seq<Record>)
    ensures FailedCount(rs) == 0 <==> forall i :: 0 <= i < |rs| ==> rs[i].pass
    decreases |rs|
  {
    if rs != [] {
      var init := rs[..|rs| - 1];
      FailedCountZeroIff(init);
      assert forall i :: 0 <= i < |init| ==> init[i] == rs[i];
    }
  }

  /** What the report writes for the records of one test, in order. */
  function RecordsText(rs: seq<Record>): string
    decreases |rs|
  {
    if rs == [] then "" else RecordsText(rs[..|rs| - 1]) + RecordText(rs[|rs| - 1])
  }

  /** A bucket writes nothing exactly when none of its records is a printable
      failure; so a failing record with `printable = false` is counted by
      `FailedCount` but leaves no trace in the text. */
  lemma {:induction false} RecordsTextSilentIff(rs: seq<Record>)
    ensures RecordsText(rs) == "" <==> forall i :: 0 <= i < |rs| ==> rs[i].pass || !rs[i].printable
    decreases |rs|
  {
    if rs != [] {
      var init := rs[..|rs| - 1];
      RecordsTextSilentIff(init);
      assert forall i :: 0 <= i < |init| ==> init[i] == rs[i];
    }
  }

  /** What the report writes for one test: the banner, its records, then the
      pass mark or the test's feedback. */
  function Section(t: Test, rs: seq<Record>): string {
    "[RUNNING " + t.name + "]\n" + RecordsText(rs) +
    (if FailedCount(rs) == 0 then "  [PASSED]\n" else "  Feedback: " + t.feedback + "\n")
  }

  /** Number of keys below `n` that have a bucket. */
  function CountKeys(m: map<int, seq<Record>>, n: nat): nat
    decreases n
  {
    if n == 0 then 0 else CountKeys(m, n - 1) + (if n - 1 in m then 1 else 0)
  }

  /** Number of keys below `n` whose bucket holds no failing record. */
  function PassedTests(m: map<int, seq<Record>>, n: nat): nat
    decreases n
  {
    if n == 0 then 0
    else PassedTests(m, n - 1) + (if n - 1 in m && FailedCount(m[n - 1]) == 0 then 1 else 0)
  }

  /** The sections of the buckets below `n`, in ascending key order. */
  function Sections(m: map<int, seq<Record>>, tests: seq<Test>, n: nat): string
    requires n <= |tests|
    decreases n
  {
    if n == 0 then ""
    else Sections(m, tests, n - 1) + (if n - 1 in m then Section(tests[n - 1], m[n - 1]) else "")
  }

  /** The whole report text: the sections, then the percentage line (absent
      when no test has a record, where the source divides zero by zero). */
  function ReportText(m: map<int, seq<Record>>, tests: seq<Test>): string {
    var n := CountKeys(m, |tests|);
    Sections(m, tests, |tests|) +
    (if n == 0 then ""
     else "\n" + Text.IntToString(Percent.CeilPercent(PassedTests(m, |tests|), n)) + "% of test passed\n")
  }

  lemma {:induction false} PassedAtMostCounted(m: map<int, seq<Record>>, n: nat)
    ensures PassedTests(m, n) <= CountKeys(m, n)
    decreases n
  {
    if n > 0 {
      PassedAtMostCounted(m, n - 1);
    }
  }

  /** When every key lies below `n`, counting keys below `n` counts the whole map. */
  lemma {:induction false} CountKeysIsSize(m: map<int, seq<Record>>, n: nat)
    requires forall k :: k in m ==> 0 <= k < n
    ensures CountKeys(m, n) == |m|
  {
    CountKeysBelow(m, n);
    assert (set k | k in m && 0 <= k < n) == m.Keys;
  }

  lemma {:induction false} CountKeysBelow(m: map<int, seq<Record>>, n: nat)
    ensures CountKeys(m, n) == |set k | k in m && 0 <= k < n|
    decreases n
  {
    if n == 0 {
      assert (set k | k in m && 0 <= k < n) == {};
    } else {
      CountKeysBelow(m, n - 1);
      var below := set k | k in m && 0 <= k < n - 1;
      if n - 1 in m {
        assert (set k | k in m && 0 <= k < n) == below + {n - 1};
      } else {
        assert (set k | k in m && 0 <= k < n) == below;
      }
    }
  }

  /** The tests one `add_test` of a list registers: the entries in list order,
      with consecutive ids from `start`. */
  function Registered(list: seq<Entry>, start: int): (ts: seq<Test>)
    ensures |ts| == |list|
    ensures forall i :: 0 <= i < |list| ==>
      ts[i] == Test(start + i, list[i].name, list[i].feedback, list[i].body)
    decreases |list|
  {
    if list == [] then []
    else
      Registered(list[..|list| - 1], start) +
      [Test(start + |list| - 1, list[|list| - 1].name, list[|list| - 1].feedback, list[|list| - 1].body)]
  }

  /** `_records` after the first `n` of `tests` ran in registration order from `m`. */
  function Ran(m: map<int, seq<Record>>, tests: seq<Test>, n: nat): map<int, seq<Record>>
    requires n <= |tests|
    decreases n
  {
    if n == 0 then m
    else B.FileAll(Ran(m, tests, n - 1), tests[n - 1].id, Outcomes(tests[n - 1].body))
  }

  /** Running one more test files its outcomes under its id. */
  lemma RanStep(m: map<int, seq<Record>>, tests: seq<Test>, p: nat)
    requires p < |tests|
    ensures Ran(m, tests, p + 1) == B.FileAll(Ran(m, tests, p), tests[p].id, Outcomes(tests[p].body))
  {
  }

  /** No test among the first `n` other than the one at position `i` shares its id. */
  predicate UniqueIdIn(tests: seq<Test>, n: nat, i: nat)
    requires i < n <= |tests|
  {
    forall j :: 0 <= j < n && j != i ==> tests[j].id != tests[i].id
  }

  /** With an id of its own, the bucket of the test at position `i` gets exactly
      the records its body makes, after what the bucket already held. */
  lemma {:induction false} RanBucketOf(m: map<int, seq<Record>>, tests: seq<Test>, n: nat, i: nat)
    requires i < n <= |tests| && UniqueIdIn(tests, n, i)
    ensures B.Bucket(Ran(m, tests, n), tests[i].id) == B.Bucket(m, tests[i].id) + Outcomes(tests[i].body)
    decreases n
  {
    var p := n - 1;
    if i == p {
      RanBucketOfLast(m, tests, p);
    } else {
      var k := tests[i].id;
      assert tests[p].id != k;
      RanBucketOf(m, tests, p, i);
      RanLeavesOther(m, tests, p, k);
      assert p + 1 == n;
    }
  }

  /** Running test `p` leaves the bucket of every other id as it was. */
  lemma RanLeavesOther(m: map<int, seq<Record>>, tests: seq<Test>, p: nat, k: int)
    requires p < |tests| && tests[p].id != k
    ensures B.Bucket(Ran(m, tests, p + 1), k) == B.Bucket(Ran(m, tests, p), k)
  {
    RanStep(m, tests, p);
    B.FileAllElsewhere(Ran(m, tests, p), tests[p].id, Outcomes(tests[p].body), k);
  }

  /** The newest test's bucket gets its records after what the bucket held before the run. */
  lemma RanBucketOfLast(m: map<int, seq<Record>>, tests: seq<Test>, p: nat)
    requires p < |tests| && UniqueIdIn(tests, p + 1, p)
    ensures B.Bucket(Ran(m, tests, p + 1), tests[p].id) == B.Bucket(m, tests[p].id) + Outcomes(tests[p].body)
  {
    RanStep(m, tests, p);
    RanElsewhere(m, tests, p, tests[p].id);
  }

  /** A key that is the id of none of the first `n` tests keeps its bucket. */
  lemma {:induction false} RanElsewhere(m: map<int, seq<Record>>, tests: seq<Test>, n: nat, k: int)
    requires n <= |tests|
    requires forall i :: 0 <= i < n ==> tests[i].id != k
    ensures B.Bucket(Ran(m, tests, n), k) == B.Bucket(m, k)
    decreases n
  {
    if n > 0 {
      var p := n - 1;
      RanElsewhere(m, tests, p, k);
      RanLeavesOther(m, tests, p, k);
    }
  }

  /** A key has a bucket after the run iff it had one before or it is the id
      of a test that made at least one assertion: tests without assertions
      never reach the report. */
  lemma {:induction false} RanKeys(m: map<int, seq<Record>>, tests: seq<Test>, n: nat, k: int)
    requires n <= |tests|
    ensures k in Ran(m, tests, n) <==> k in m || FiledBy(tests, n, k)
    decreases n
  {
    if n > 0 {
      var p := n - 1;
      var t := tests[p];
      var prev, out := Ran(m, tests, p), Outcomes(t.body);
      RanStep(m, tests, p);
      RanKeys(m, tests, p, k);
      B.FileAllKeys(prev, t.id, out);
      assert (out == []) == (t.body == []);
      FiledByStep(tests, p, k);
    }
  }

  /** Some test among the first `n` has id `k` and made at least one assertion. */
  ghost predicate FiledBy(tests: seq<Test>, n: nat, k: int)
    requires n <= |tests|
  {
    exists i :: 0 <= i < n && tests[i].id == k && tests[i].body != []
  }

  lemma FiledByStep(tests: seq<Test>, p: nat, k: int)
    requires p < |tests|
    ensures FiledBy(tests, p + 1, k) <==> FiledBy(tests, p, k) || (tests[p].id == k && tests[p].body != [])
  {
    if FiledBy(tests, p + 1, k) {
      var i :| 0 <= i < p + 1 && tests[i].id == k && tests[i].body != [];
      if i < p {
        assert FiledBy(tests, p, k);
      }
    }
  }

  predicate IdsAreIndices(tests: seq<Test>) {
    forall i :: 0 <= i < |tests| ==> tests[i].id == i
  }

  /** End to end, from an environment without records: a test appears in the
      report iff it made an assertion, and it counts as passed iff every one
      of its assertions held. */
  lemma {:induction false} TestVerdict(tests: seq<Test>, i: nat)
    requires IdsAreIndices(tests) && i < |tests|
    ensures i in Ran(map[], tests, |tests|) <==> tests[i].body != []
    ensures i in Ran(map[], tests, |tests|) ==>
      (FailedCount(Ran(map[], tests, |tests|)[i]) == 0 <==>
       forall j :: 0 <= j < |tests[i].body| ==> Holds(tests[i].body[j]))
  {
    var n := |tests|;
    var r, body := Ran(map[], tests, n), tests[i].body;
    assert tests[i].id == i;
    RanKeys(map[], tests, n, i);
    if i in r {
      assert UniqueIdIn(tests, n, i);
      RanBucketOf(map[], tests, n, i);
      assert r[i] == Outcomes(body);
      VerdictOfOutcomes(body);
    }
  }

  /** The outcomes of a body hold no failure iff every assertion of it held. */
  lemma VerdictOfOutcomes(body: seq<Assertion>)
    ensures FailedCount(Outcomes(body)) == 0 <==> forall j :: 0 <= j < |body| ==> Holds(body[j])
  {
    var rs := Outcomes(body);
    FailedCountZeroIff(rs);
    forall j | 0 <= j < |body| ensures rs[j].pass == Holds(body[j]) {
      OutcomesPass(body, j);
    }
  }

  /** The last of `tests`, or `other` when there is none: where the cursor
      rests after a run. */
  function LastTest(tests: seq<Test>, other: Option<Test>): Option<Test> {
    if |tests| == 0 then other else Some(tests[|tests| - 1])
  }

  /** `_tests.at(id)`: the test at position `id`, or None where `at` throws. */
  function AtLookup(tests: seq<Test>, id: int): (t: Option<Test>)
    ensures t.Some? <==> 0 <= id < |tests|
    ensures t.Some? ==> t.value == tests[id]
  {
    if 0 <= id < |tests| then Some(tests[id]) else None
  }

  /** With the counter shared by all environments, an environment created
      after another one registered a test numbers its first test 1; the
      report's `_tests.at(1)` then misses, as the vector holds one test. */
  lemma {:induction false} SharedCounterLookupMisses(e: Entry)
    requires e.body != []
    ensures var tests := Registered([e], 1);
      1 in Ran(map[], tests, 1) && AtLookup(tests, tests[0].id) == None
  {
    var tests := Registered([e], 1);
    assert tests[0].id == 1;
    RanKeys(map[], tests, 1, 1);
  }

  /** With a counter per environment starting at 0, the report's lookup of
      every bucket key finds the test that filed it. */
  lemma {:induction false} OwnCounterLookupFinds(list: seq<Entry>, k: int)
    requires k in Ran(map[], Registered(list, 0), |list|)
    ensures var tests := Registered(list, 0);
      AtLookup(tests, k).Some? && AtLookup(tests, k).value.id == k
  {
    var tests := Registered(list, 0);
    RanKeys(map[], tests, |list|, k);
  }

  class Env {
    var idCounter: int
    var tests: seq<Test>
    var records: map<int, seq<Record>>
    var current: Option<Test>

    /** Ids are positions (the counter starts at 0 and counts the tests),
        and only registered ids have buckets. */
    ghost predicate Valid()
      reads this
    {
      && idCounter == |tests|
      && IdsAreIndices(tests)
      && (forall k :: k in records ==> 0 <= k < |tests|)
    }

    /** A body is running: the cursor holds a test with a registered id,
        under which its records are filed. */
    ghost predicate Running()
      reads this
    {
      Valid() && current.Some? && 0 <= current.value.id < |tests|
    }

    constructor ()
      ensures Valid()
      ensures idCounter == 0 && tests == [] && records == map[] && current == None
    {
      idCounter := 0;
      tests := [];
      records := map[];
      current := None;
    }

    /** `add_test(t)`: one test at the end, numbered by the counter, which advances. */
    method AddTest(name: string, feedback: string, body: seq<Assertion>)
      requires Valid()
      modifies this
      ensures Valid()
      ensures tests == old(tests) + [Test(old(idCounter), name, feedback, body)]
      ensures idCounter == old(idCounter) + 1
      ensures records == old(records) && current == old(current)
    {
      tests := tests + [Test(idCounter, name, feedback, body)];
      idCounter := idCounter + 1;
    }

    /** `add_test(list)`: the entries in list order, as successive single calls. */
    method AddTests(list: seq<Entry>)
      requires Valid()
      modifies this
      ensures Valid()
      ensures tests == old(tests) + Registered(list, old(idCounter))
      ensures idCounter == old(idCounter) + |list|
      ensures records == old(records) && current == old(current)
    {
      var i := 0;
      while i < |list|
        invariant 0 <= i <= |list|
        invariant Valid()
        invariant tests == old(tests) + Registered(list[..i], old(idCounter))
        invariant idCounter == old(idCounter) + i
        invariant records == old(records) && current == old(current)
      {
        AddTest(list[i].name, list[i].feedback, list[i].body);
        assert list[..i + 1][..i] == list[..i];
        i := i + 1;
      }
      assert list[..i] == list;
    }

    /** `_insertRecord`: file `rec` under the current test's id. */
    method InsertRecord(rec: Record)
      requires Running()
      modifies this
      ensures Running()
      ensures records == B.Insert(old(records), old(current).value.id, rec)
      ensures tests == old(tests) && idCounter == old(idCounter) && current == old(current)
    {
      records := B.Insert(records, current.value.id, rec);
    }

    /** The generic `expect`: evaluate the comparator's verdict and file the record. */
    method Expect(holds: bool, reason: string, printable: bool)
      requires Running()
      modifies this
      ensures Running()
      ensures records == B.Insert(old(records), old(current).value.id, ExpectRecord(holds, reason, printable))
      ensures tests == old(tests) && idCounter == old(idCounter) && current == old(current)
    {
      var rec := ExpectRecord(holds, reason, printable);
      InsertRecord(rec);
    }

    method ExpectEq(l: int, r: int, printable: bool)
      requires Running()
      modifies this
      ensures Running()
      ensures records == B.Insert(old(records), old(current).value.id, Outcome(Eq(l, r, printable)))
      ensures tests == old(tests) && idCounter == old(idCounter) && current == old(current)
    {
      Expect(l == r, FailureReason(Eq(l, r, printable)), printable);
    }

    method ExpectNeq(l: int, r: int, printable: bool)
      requires Running()
      modifies this
      ensures Running()
      ensures records == B.Insert(old(records), old(current).value.id, Outcome(Neq(l, r, printable)))
      ensures tests == old(tests) && idCounter == old(idCounter) && current == old(current)
    {
      Expect(l != r, FailureReason(Neq(l, r, printable)), printable);
    }

    method ExpectTrue(v: bool, printable: bool)
      requires Running()
      modifies this
      ensures Running()
      ensures records == B.Insert(old(records), old(current).value.id, Outcome(IsTrue(v, printable)))
      ensures tests == old(tests) && idCounter == old(idCounter) && current == old(current)
    {
      Expect(v == true, "value is false", printable);
    }

    method ExpectFalse(v: bool, printable: bool)
      requires Running()
      modifies this
      ensures Running()
      ensures records == B.Insert(old(records), old(current).value.id, Outcome(IsFalse(v, printable)))
      ensures tests == old(tests) && idCounter == old(idCounter) && current == old(current)
    {
      Expect(v == false, "value is true", printable);
    }

    /** One assertion call of a test body. */
    method Perform(a: Assertion)
      requires Running()
      modifies this
      ensures Running()
      ensures records == B.Insert(old(records), old(current).value.id, Outcome(a))
      ensures tests == old(tests) && idCounter == old(idCounter) && current == old(current)
    {
      match a {
        case Eq(l, r, p) => ExpectEq(l, r, p);
        case Neq(l, r, p) => ExpectNeq(l, r, p);
        case IsTrue(v, p) => ExpectTrue(v, p);
        case IsFalse(v, p) => ExpectFalse(v, p);
        case Custom(h, reason, p) => Expect(h, reason, p);
      }
    }

    /** A test body: its assertions, made one after another. */
    method RunBody(body: seq<Assertion>)
      requires Running()
      modifies this
      ensures Running()
      ensures records == B.FileAll(old(records), old(current).value.id, Outcomes(body))
      ensures tests == old(tests) && idCounter == old(idCounter) && current == old(current)
    {
      ghost var m0, key := records, current.value.id;
      var i := 0;
      while i < |body|
        invariant 0 <= i <= |body|
        invariant Running()
        invariant records == B.FileAll(m0, key, Outcomes(body[..i]))
        invariant tests == old(tests) && idCounter == old(idCounter) && current == old(current)
      {
        Perform(body[i]);
        OutcomesPrefix(body, i);
        B.FileAllSnoc(m0, key, Outcomes(body[..i]), Outcome(body[i]));
        i := i + 1;
      }
      assert body[..i] == body;
    }

    /** The inner loop of `_report` over one bucket: count its failing
        records and write each record. */
    static method BucketReport(bucket: seq<Record>) returns (failed: nat, text: string)
      ensures failed == FailedCount(bucket)
      ensures text == RecordsText(bucket)
    {
      failed, text := 0, "";
      var j := 0;
      while j < |bucket|
        invariant 0 <= j <= |bucket|
        invariant failed == FailedCount(bucket[..j])
        invariant text == RecordsText(bucket[..j])
      {
        assert bucket[..j + 1][..j] == bucket[..j];
        if !bucket[j].pass {
          failed := failed + 1;
        }
        text := text + RecordText(bucket[j]);
        j := j + 1;
      }
      assert bucket[..j] == bucket;
    }

    /** One test's part of `_report`: whether none of its records failed, and its section. */
    static method TestSection(test: Test, bucket: seq<Record>) returns (ok: bool, section: string)
      ensures ok <==> FailedCount(bucket) == 0
      ensures section == Section(test, bucket)
    {
      var failed, text := BucketReport(bucket);
      var verdict;
      if failed == 0 {
        verdict := "  [PASSED]\n";
      } else {
        verdict := "  Feedback: " + test.feedback + "\n";
      }
      ok := failed == 0;
      section := "[RUNNING " + test.name + "]\n" + text + verdict;
    }

    /** The loop of `_report` over the ids in ascending order: the buckets met,
        those without a failing record, and the sections written so far. */
    method Walk() returns (passed: nat, total: nat, out: string)
      ensures total == CountKeys(records, |tests|)
      ensures passed == PassedTests(records, |tests|)
      ensures out == Sections(records, tests, |tests|)
    {
      passed, total := 0, 0;
      out := "";
      var k := 0;
      while k < |tests|
        invariant 0 <= k <= |tests|
        invariant total == CountKeys(records, k)
        invariant passed == PassedTests(records, k)
        invariant out == Sections(records, tests, k)
      {
        if k in records {
          var test := tests[k];  // `_tests.at(id)`, with id == k
          total := total + 1;
          var ok, section := TestSection(test, records[k]);
          if ok {
            passed := passed + 1;
          }
          out := out + section;
        }
        k := k + 1;
      }
    }

    /** `_report`: walk the buckets in ascending id order, count the tests
        with records and those without a failing record, and build the text. */
    method Report() returns (s: Summary, out: string)
      requires Valid()
      ensures s.total == |records|
      ensures s.passed == PassedTests(records, |tests|) && s.passed <= s.total
      ensures s.percentage == PercentageOf(s.passed, s.total)
      ensures s.percentage.Some? ==> 0 <= s.percentage.value <= 100
      ensures out == ReportText(records, tests)
    {
      var passed, total;
      passed, total, out := Walk();
      CountKeysIsSize(records, |tests|);
      PassedAtMostCounted(records, |tests|);
      if total == 0 {
        s := Summary(passed, total, None);
      } else {
        var p := Percent.CeilPercent(passed, total);
        s := Summary(passed, total, Some(p));
        out := out + "\n" + Text.IntToString(p) + "% of test passed\n";
      }
    }

    /** The step of `run_all` for the test at position `i`: the cursor moves
        to a copy of it and its body runs. */
    method RunTest(i: nat)
      requires Valid() && i < |tests|
      modifies this
      ensures Valid() && tests == old(tests) && idCounter == old(idCounter)
      ensures records == B.FileAll(old(records), tests[i].id, Outcomes(tests[i].body))
      ensures current == Some(tests[i])
    {
      current := Some(tests[i]);
      RunBody(tests[i].body);
    }

    /** The loop of `run_all`: every body in registration order. */
    method RunTests()
      requires Valid()
      modifies this
      ensures Valid()
      ensures records == Ran(old(records), tests, |tests|)
      ensures tests == old(tests) && idCounter == old(idCounter)
      ensures current == LastTest(tests, old(current))
    {
      ghost var m0 := records;
      var i := 0;
      while i < |tests|
        invariant 0 <= i <= |tests|
        invariant Valid()
        invariant tests == old(tests) && idCounter == old(idCounter)
        invariant records == Ran(m0, tests, i)
        invariant current == if i == 0 then old(current) else Some(tests[i - 1])
      {
        RunTest(i);
        RanStep(m0, tests, i);
        i := i + 1;
      }
    }

    /** `run_all`: run every body in registration order with the cursor on its
        test, then report when asked to. */
    method RunAll(report: bool) returns (s: Option<Summary>, out: string)
      requires Valid()
      modifies this
      ensures Valid()
      ensures records == Ran(old(records), tests, |tests|)
      ensures tests == old(tests) && idCounter == old(idCounter)
      ensures current == LastTest(tests, old(current))
      ensures s.Some? <==> report
      ensures report ==> s.value.total == |records| && s.value.passed == PassedTests(records, |tests|)
      ensures report ==> s.value.percentage == PercentageOf(s.value.passed, s.value.total)
      ensures out == if report then ReportText(records, tests) else ""
    {
      RunTests();
      if report {
        var summary;
        summary, out := Report();
        s := Some(summary);
      } else {
        s, out := None, "";
      }
    }
  }
}
