/** The older test environment, `GradingEnv`: tests keyed by an 8-bit position
    counter that wraps, a single `expect_eq` assertion, and a report that
    counts records rather than tests. */
module Grading {
  import Text
  import opened Percent
  import B = Buckets

  /** `uint8_t`, the type of the position counter and of the map's keys. */
  newtype Byte = x: int | 0 <= x < 256

  /** The outcome of one `expect_eq`, stamped with the name of the test that made it. */
  datatype Record = Record(pass: bool, feedback: string, name: string)

  /** One `expect_eq(l, r, msg)` call of a test body. */
  datatype Check = Check(l: int, r: int, msg: string)

  /** A registered test: its name and the checks its body makes, in order. */
  datatype Test = Test(name: string, body: seq<Check>)

  /** The text `operator<<` writes for a record. */
  function RecordText(rec: Record): string {
    if !rec.pass then "[" + rec.name + " FAILED]\n" + rec.feedback + "\n"
    else "[" + rec.name + " PASSED]\n"
  }

  /** A record's text opens with "[" and its test's name, followed by " PASSED]"
      and a line break, or " FAILED]", a line break, the feedback and a line break. */
  lemma RecordTextShape(rec: Record)
    ensures var s := RecordText(rec);
      |s| > |rec.name| + 1 && s[..|rec.name| + 1] == "[" + rec.name &&
      (rec.pass ==> s[|rec.name| + 1..] == " PASSED]\n") &&
      (!rec.pass ==> s[|rec.name| + 1..] == " FAILED]\n" + rec.feedback + "\n")
  {
    var s, h := RecordText(rec), "[" + rec.name;
    if rec.pass {
      assert s == h + " PASSED]\n";
    } else {
      assert s == h + (" FAILED]\n" + rec.feedback + "\n");
    }
  }

  /** The text of a record of a known test tells whether it passed and, for a
      failure, what its feedback was. */
  lemma RecordTextDistinguishes(r1: Record, r2: Record)
    requires r1.name == r2.name && RecordText(r1) == RecordText(r2)
    ensures r1.pass == r2.pass
    ensures !r1.pass ==> r1.feedback == r2.feedback
  {
    RecordTextShape(r1);
    RecordTextShape(r2);
    var k := |r1.name| + 1;
    var t1, t2 := RecordText(r1)[k..], RecordText(r2)[k..];
    assert t1 == t2;
    if !r1.pass && !r2.pass {
      var f1, f2 := " FAILED]\n" + r1.feedback + "\n", " FAILED]\n" + r2.feedback + "\n";
      assert f1[9..|f1| - 1] == r1.feedback;
      assert f2[9..|f2| - 1] == r2.feedback;
    }
  }

  /** The record `expect_eq` files while the test named `name` runs. */
  function EqRecord(name: string, c: Check): (rec: Record)
    ensures rec.name == name
    ensures rec.pass <==> c.l == c.r
    ensures rec.pass ==> rec.feedback == "Passed!"
    ensures !rec.pass ==>
      rec.feedback == "  Expected: " + Text.IntToString(c.r) + "\n" + "  Got: " + Text.IntToString(c.l) + "\n" + "  Message: " + c.msg
  {
    if c.l == c.r then Record(true, "Passed!", name)
    else
      Record(false, "  Expected: " + Text.IntToString(c.r) + "\n" + "  Got: " + Text.IntToString(c.l) +
                    "\n" + "  Message: " + c.msg, name)
  }

  /** A failure's feedback names the expected value `r` and the value got `l`:
      two failures with the same feedback compared the same values with the same message. */
  lemma FailureFeedbackDeterminesCheck(c1: Check, c2: Check, name: string)
    requires c1.l != c1.r && c2.l != c2.r
    requires EqRecord(name, c1).feedback == EqRecord(name, c2).feedback
    ensures c1 == c2
  {
    var e1, g1 := Text.IntToString(c1.r), Text.IntToString(c1.l);
    var e2, g2 := Text.IntToString(c2.r), Text.IntToString(c2.l);
    Text.IntToStringShape(c1.r);
    Text.IntToStringShape(c1.l);
    Text.IntToStringShape(c2.r);
    Text.IntToStringShape(c2.l);
    FeedbackFields(e1, g1, c1.msg, e2, g2, c2.msg);
    Text.IntToStringInjective(c1.r, c2.r);
    Text.IntToStringInjective(c1.l, c2.l);
  }

  lemma FeedbackFields(e1: string, g1: string, m1: string, e2: string, g2: string, m2: string)
    requires '\n' !in e1 && '\n' !in g1 && '\n' !in e2 && '\n' !in g2
    requires "  Expected: " + e1 + "\n" + "  Got: " + g1 + "\n" + "  Message: " + m1 ==
             "  Expected: " + e2 + "\n" + "  Got: " + g2 + "\n" + "  Message: " + m2
    ensures e1 == e2 && g1 == g2 && m1 == m2
  {
    var u1, u2 := "  Message: " + m1, "  Message: " + m2;
    var t1, t2 := "  Got: " + g1 + "\n" + u1, "  Got: " + g2 + "\n" + u2;
    Regroup(e1, g1, m1);
    Regroup(e2, g2, m2);
    SplitLine("  Expected: ", e1, t1, e2, t2);
    SplitLine("  Got: ", g1, u1, g2, u2);
    assert m1 == u1[11..] && m2 == u2[11..];
  }

  /** The feedback text read as its first line and the rest. */
  lemma Regroup(e: string, g: string, msg: string)
    ensures "  Expected: " + e + "\n" + "  Got: " + g + "\n" + "  Message: " + msg ==
            "  Expected: " + e + "\n" + ("  Got: " + g + "\n" + ("  Message: " + msg))
  {
  }

  /** Two texts made of the same head, a line without a break, and a rest agree line by line. */
  lemma SplitLine(head: string, a: string, rest1: string, b: string, rest2: string)
    requires '\n' !in head && '\n' !in a && '\n' !in b
    requires head + a + "\n" + rest1 == head + b + "\n" + rest2
    ensures a == b && rest1 == rest2
  {
    assert head + a + "\n" + rest1 == (head + a) + ['\n'] + rest1;
    assert head + b + "\n" + rest2 == (head + b) + ['\n'] + rest2;
    Text.SplitAtSeparator(head + a, rest1, head + b, rest2, '\n');
    assert a == (head + a)[|head|..];
    assert b == (head + b)[|head|..];
  }

  function Outcomes(name: string, body: seq<Check>): (rs: seq<Record>)
    ensures |rs| == |body|
    decreases |body|
  {
    if body == [] then []
    else
      var n := |body| - 1;
      Outcomes(name, body[..n]) + [EqRecord(name, body[n])]
  }

  lemma OutcomesPrefix(name: string, body: seq<Check>, i: nat)
    requires i < |body|
    ensures Outcomes(name, body[..i + 1]) == Outcomes(name, body[..i]) + [EqRecord(name, body[i])]
  {
    assert body[..i + 1][..i] == body[..i];
  }

  /** `_nextTest`: the `uint8_t` counter advances by one, wrapping from 255 to 0. */
  function Next(k: Byte): (k': Byte)
    ensures k < 255 ==> k' as int == k as int + 1
    ensures k == 255 ==> k' == 0
  {
    if k == 255 then 0 else k + 1
  }

  /** The key the counter holds while the test at position `i` runs, when it
      held `start` before the first: `i` steps of `Next`. */
  function KeyAt(start: Byte, i: nat): Byte
    decreases i
  {
    if i == 0 then start else Next(KeyAt(start, i - 1))
  }

  /** One more position is one more step of the counter. */
  lemma KeyAtStep(start: Byte, i: nat)
    ensures KeyAt(start, i + 1) == Next(KeyAt(start, i))
  {
  }

  /** After `i` steps the counter holds `start + i` reduced modulo 256. */
  lemma {:induction false} KeyAtValue(start: Byte, i: nat)
    ensures KeyAt(start, i) as int == (start as int + i) % 256
    decreases i
  {
    if i > 0 {
      KeyAtValue(start, i - 1);
      var x := start as int + i - 1;
      var y := KeyAt(start, i - 1) as int;
      var k := KeyAt(start, i) as int;
      assert k == if y < 255 then y + 1 else 0;
      ModStep(x);
    }
  }

  /** Adding one commutes with reduction modulo 256. */
  lemma ModStep(x: int)
    ensures (x + 1) % 256 == if x % 256 < 255 then x % 256 + 1 else 0
  {
    var q, r := x / 256, x % 256;
    assert x + 1 == 256 * q + (r + 1);
    if r == 255 {
      assert x + 1 == 256 * (q + 1) + 0;
    }
  }

  /** Positions 256 apart share a key. */
  lemma KeyAtWraps(start: Byte, i: nat)
    ensures KeyAt(start, i + 256) == KeyAt(start, i)
  {
    KeyAtValue(start, i);
    KeyAtValue(start, i + 256);
    var x := start as int + i;
    assert (x + 256) % 256 == x % 256;
  }

  /** Fewer than 256 positions apart, keys differ. */
  lemma KeyAtDistinct(start: Byte, i: nat, j: nat)
    requires i < j < i + 256
    ensures KeyAt(start, i) != KeyAt(start, j)
  {
    KeyAtValue(start, i);
    KeyAtValue(start, j);
    var x, y := start as int + i, start as int + j;
    assert x == 256 * (x / 256) + x % 256 && y == 256 * (y / 256) + y % 256;
  }

  /** `_records` after the first `n` of `tests` ran in order from `m`, the
      counter holding `start` before the first. */
  function Ran(m: map<Byte, seq<Record>>, tests: seq<Test>, n: nat, start: Byte): map<Byte, seq<Record>>
    requires n <= |tests|
    decreases n
  {
    if n == 0 then m
    else B.FileAll(Ran(m, tests, n - 1, start), KeyAt(start, n - 1), Outcomes(tests[n - 1].name, tests[n - 1].body))
  }

  /** Running one more test files its outcomes under the key of its position. */
  lemma RanStep(m: map<Byte, seq<Record>>, tests: seq<Test>, p: nat, start: Byte)
    requires p < |tests|
    ensures Ran(m, tests, p + 1, start) ==
      B.FileAll(Ran(m, tests, p, start), KeyAt(start, p), Outcomes(tests[p].name, tests[p].body))
  {
  }

  /** With at most 256 tests run no two share a key: the bucket of the test at
      position `i` gets exactly its own records, each stamped with its name. */
  lemma {:induction false} RanBucketAt(m: map<Byte, seq<Record>>, tests: seq<Test>, n: nat, start: Byte, i: nat)
    requires n <= |tests| && n <= 256 && i < n
    ensures B.Bucket(Ran(m, tests, n, start), KeyAt(start, i)) ==
      B.Bucket(m, KeyAt(start, i)) + Outcomes(tests[i].name, tests[i].body)
    decreases n
  {
    var p := n - 1;
    assert p + 1 == n;
    var k := KeyAt(start, i);
    if i == p {
      RanBucketAtLast(m, tests, p, start);
    } else {
      RanBucketAt(m, tests, p, start, i);
      KeyAtDistinct(start, i, p);
      RanLeavesOther(m, tests, p, start, k);
    }
  }

  /** The newest test's bucket gets its records after what it held before the
      run, since no earlier position of a run of at most 256 shares its key. */
  lemma RanBucketAtLast(m: map<Byte, seq<Record>>, tests: seq<Test>, p: nat, start: Byte)
    requires p < |tests| && p < 256
    ensures B.Bucket(Ran(m, tests, p + 1, start), KeyAt(start, p)) ==
      B.Bucket(m, KeyAt(start, p)) + Outcomes(tests[p].name, tests[p].body)
  {
    var k := KeyAt(start, p);
    RanStep(m, tests, p, start);
    forall j | 0 <= j < p ensures KeyAt(start, j) != k {
      KeyAtDistinct(start, j, p);
    }
    RanElsewhere(m, tests, p, start, k);
  }

  /** Running the test at position `p` leaves the bucket of every other key as it was. */
  lemma RanLeavesOther(m: map<Byte, seq<Record>>, tests: seq<Test>, p: nat, start: Byte, k: Byte)
    requires p < |tests| && KeyAt(start, p) != k
    ensures B.Bucket(Ran(m, tests, p + 1, start), k) == B.Bucket(Ran(m, tests, p, start), k)
  {
    RanStep(m, tests, p, start);
    B.FileAllElsewhere(Ran(m, tests, p, start), KeyAt(start, p), Outcomes(tests[p].name, tests[p].body), k);
  }

  /** A key that none of the first `n` positions maps to keeps its bucket. */
  lemma {:induction false} RanElsewhere(m: map<Byte, seq<Record>>, tests: seq<Test>, n: nat, start: Byte, k: Byte)
    requires n <= |tests|
    requires forall i :: 0 <= i < n ==> KeyAt(start, i) != k
    ensures B.Bucket(Ran(m, tests, n, start), k) == B.Bucket(m, k)
    decreases n
  {
    if n > 0 {
      var p := n - 1;
      RanStep(m, tests, p, start);
      RanElsewhere(m, tests, p, start, k);
      B.FileAllElsewhere(Ran(m, tests, p, start), KeyAt(start, p), Outcomes(tests[p].name, tests[p].body), k);
    }
  }

  /** With 257 tests the counter wraps: the records of the test at position
      256 join those of the first test in the bucket of the starting key. */
  lemma {:induction false} WrapSharesBucket(m: map<Byte, seq<Record>>, tests: seq<Test>, start: Byte)
    requires |tests| == 257
    ensures B.Bucket(Ran(m, tests, 257, start), start) ==
      B.Bucket(m, start) + Outcomes(tests[0].name, tests[0].body) + Outcomes(tests[256].name, tests[256].body)
  {
    var prev, o := Ran(m, tests, 256, start), Outcomes(tests[256].name, tests[256].body);
    KeyAtFullCircle(start);
    RanBucketAt(m, tests, 256, start, 0);
    RanStep(m, tests, 256, start);
    assert Ran(m, tests, 257, start) == B.FileAll(prev, start, o);
  }

  /** After 256 steps the counter is back where it started. */
  lemma KeyAtFullCircle(start: Byte)
    ensures KeyAt(start, 0) == start && KeyAt(start, 256) == start
  {
    KeyAtWraps(start, 0);
  }

  /** Number of records in the buckets with keys below `n`. */
  function RecordCount(m: map<Byte, seq<Record>>, n: nat): nat
    requires n <= 256
    decreases n
  {
    if n == 0 then 0 else RecordCount(m, n - 1) + |B.Bucket(m, (n - 1) as Byte)|
  }

  /** Number of passing records in `rs`. */
  function PassingIn(rs: seq<Record>): nat
    decreases |rs|
  {
    if rs == [] then 0 else PassingIn(rs[..|rs| - 1]) + (if rs[|rs| - 1].pass then 1 else 0)
  }

  /** Number of passing records in the buckets with keys below `n`. */
  function PassCount(m: map<Byte, seq<Record>>, n: nat): nat
    requires n <= 256
    decreases n
  {
    if n == 0 then 0 else PassCount(m, n - 1) + PassingIn(B.Bucket(m, (n - 1) as Byte))
  }

  lemma {:induction false} PassingInAtMost(rs: seq<Record>)
    ensures PassingIn(rs) <= |rs|
    decreases |rs|
  {
    if rs != [] {
      PassingInAtMost(rs[..|rs| - 1]);
    }
  }

  lemma {:induction false} PassCountAtMost(m: map<Byte, seq<Record>>, n: nat)
    requires n <= 256
    ensures PassCount(m, n) <= RecordCount(m, n)
    decreases n
  {
    if n > 0 {
      PassCountAtMost(m, n - 1);
      PassingInAtMost(B.Bucket(m, (n - 1) as Byte));
    }
  }

  /** Filing one record adds one to the record count, and one to the pass
      count iff the record passed, whichever bucket it lands in. */
  lemma {:induction false} InsertCounts(m: map<Byte, seq<Record>>, k: Byte, rec: Record, n: nat)
    requires n <= 256
    ensures RecordCount(B.Insert(m, k, rec), n) == RecordCount(m, n) + (if (k as int) < n then 1 else 0)
    ensures PassCount(B.Insert(m, k, rec), n) ==
      PassCount(m, n) + (if (k as int) < n && rec.pass then 1 else 0)
    decreases n
  {
    if n > 0 {
      var j := (n - 1) as Byte;
      var m' := B.Insert(m, k, rec);
      InsertCounts(m, k, rec, n - 1);
      InsertBucket(m, k, rec, j);
      assert RecordCount(m', n) == RecordCount(m', n - 1) + |B.Bucket(m', j)|;
      assert PassCount(m', n) == PassCount(m', n - 1) + PassingIn(B.Bucket(m', j));
    }
  }

  /** What one insertion does to the size and pass count of bucket `j`. */
  lemma InsertBucket(m: map<Byte, seq<Record>>, k: Byte, rec: Record, j: Byte)
    ensures |B.Bucket(B.Insert(m, k, rec), j)| == |B.Bucket(m, j)| + (if j == k then 1 else 0)
    ensures PassingIn(B.Bucket(B.Insert(m, k, rec), j)) ==
      PassingIn(B.Bucket(m, j)) + (if j == k && rec.pass then 1 else 0)
  {
    var b := B.Bucket(m, k);
    if j == k {
      assert (b + [rec])[..|b|] == b;
    }
  }

  lemma {:induction false} FileAllCounts(m: map<Byte, seq<Record>>, k: Byte, rs: seq<Record>, n: nat)
    requires n <= 256
    ensures RecordCount(B.FileAll(m, k, rs), n) == RecordCount(m, n) + (if (k as int) < n then |rs| else 0)
    ensures PassCount(B.FileAll(m, k, rs), n) == PassCount(m, n) + (if (k as int) < n then PassingIn(rs) else 0)
    decreases |rs|
  {
    if rs != [] {
      var init, last := rs[..|rs| - 1], rs[|rs| - 1];
      var m0 := B.FileAll(m, k, init);
      assert B.FileAll(m, k, rs) == B.Insert(m0, k, last);
      FileAllCounts(m, k, init, n);
      InsertCounts(m0, k, last, n);
      assert PassingIn(rs) == PassingIn(init) + (if last.pass then 1 else 0);
    }
  }

  /** Number of checks in `tests` whose operands are equal. */
  function HoldingChecks(body: seq<Check>): nat
    decreases |body|
  {
    if body == [] then 0
    else HoldingChecks(body[..|body| - 1]) + (if body[|body| - 1].l == body[|body| - 1].r then 1 else 0)
  }

  /** Number of checks the first `n` tests make. */
  function TotalChecks(tests: seq<Test>, n: nat): nat
    requires n <= |tests|
    decreases n
  {
    if n == 0 then 0 else TotalChecks(tests, n - 1) + |tests[n - 1].body|
  }

  /** Number of checks with equal operands the first `n` tests make. */
  function PassingChecks(tests: seq<Test>, n: nat): nat
    requires n <= |tests|
    decreases n
  {
    if n == 0 then 0 else PassingChecks(tests, n - 1) + HoldingChecks(tests[n - 1].body)
  }

  lemma {:induction false} PassingInOutcomes(name: string, body: seq<Check>)
    ensures PassingIn(Outcomes(name, body)) == HoldingChecks(body)
    decreases |body|
  {
    if body != [] {
      var n := |body| - 1;
      PassingInOutcomes(name, body[..n]);
      OutcomesPrefix(name, body, n);
      assert body[..n + 1] == body;
      assert Outcomes(name, body)[..n] == Outcomes(name, body[..n]);
    }
  }

  /** Whatever the wrap-around does to the keys, the report's counts are
      exactly the checks made in all bodies and those whose operands were equal. */
  lemma {:induction false} RanCounts(m: map<Byte, seq<Record>>, tests: seq<Test>, n: nat, start: Byte)
    requires n <= |tests|
    ensures RecordCount(Ran(m, tests, n, start), 256) == RecordCount(m, 256) + TotalChecks(tests, n)
    ensures PassCount(Ran(m, tests, n, start), 256) == PassCount(m, 256) + PassingChecks(tests, n)
    decreases n
  {
    if n > 0 {
      var p := n - 1;
      var t, k := tests[p], KeyAt(start, p);
      var prev, out := Ran(m, tests, p, start), Outcomes(t.name, t.body);
      RanStep(m, tests, p, start);
      assert TotalChecks(tests, n) == TotalChecks(tests, p) + |t.body|;
      assert PassingChecks(tests, n) == PassingChecks(tests, p) + HoldingChecks(t.body);
      RanCounts(m, tests, p, start);
      FileAllCounts(prev, k, out, 256);
      PassingInOutcomes(t.name, t.body);
    }
  }

  /** What the report writes for one bucket: each record, then a line break. */
  function RecordsLog(rs: seq<Record>): string
    decreases |rs|
  {
    if rs == [] then "" else RecordsLog(rs[..|rs| - 1]) + RecordText(rs[|rs| - 1]) + "\n"
  }

  /** One more record of a bucket: its pass adds to the count, its text to the log. */
  lemma LogStep(rs: seq<Record>, j: nat, passed: nat, text: string)
    requires j < |rs| && passed == PassingIn(rs[..j]) && text == RecordsLog(rs[..j])
    ensures PassingIn(rs[..j + 1]) == passed + (if rs[j].pass then 1 else 0)
    ensures RecordsLog(rs[..j + 1]) == text + RecordText(rs[j]) + "\n"
  {
    assert rs[..j + 1][..j] == rs[..j];
  }

  /** What the report writes for all buckets with keys below `n`, ascending. */
  function Log(m: map<Byte, seq<Record>>, n: nat): string
    requires n <= 256
    decreases n
  {
    if n == 0 then "" else Log(m, n - 1) + RecordsLog(B.Bucket(m, (n - 1) as Byte))
  }

  /** The name of the last of `tests`, or `other` when there is none. */
  function LastName(tests: seq<Test>, other: string): string {
    if |tests| == 0 then other else tests[|tests| - 1].name
  }

  /** The whole report text (the percentage line is absent when there is no
      record, where the source divides zero by zero). */
  function ReportText(m: map<Byte, seq<Record>>): string {
    Log(m, 256) + PercentLine(PassCount(m, 256), RecordCount(m, 256))
  }

  /** The line with the percentage, absent when there is no record. */
  function PercentLine(passed: nat, total: nat): string {
    if total == 0 then ""
    else Text.IntToString(Percent.CeilPercent(passed, total)) + "% of test passed\n"
  }

  class Env {
    var current: Byte
    var currentName: string
    var tests: seq<Test>
    var records: map<Byte, seq<Record>>

    constructor ()
      ensures current == 0 && currentName == "" && tests == [] && records == map[]
    {
      current := 0;
      currentName := "";
      tests := [];
      records := map[];
    }

    /** `add_test(pair)`: one test at the end; nothing else changes. */
    method AddTest(name: string, body: seq<Check>)
      modifies this
      ensures tests == old(tests) + [Test(name, body)]
      ensures current == old(current) && currentName == old(currentName) && records == old(records)
    {
      tests := tests + [Test(name, body)];
    }

    /** `add_test(list)`: the entries appended in list order. */
    method AddTests(list: seq<Test>)
      modifies this
      ensures tests == old(tests) + list
      ensures current == old(current) && currentName == old(currentName) && records == old(records)
    {
      var i := 0;
      while i < |list|
        invariant 0 <= i <= |list|
        invariant tests == old(tests) + list[..i]
        invariant current == old(current) && currentName == old(currentName) && records == old(records)
      {
        tests := tests + [Test(list[i].name, list[i].body)];
        assert list[..i + 1] == list[..i] + [list[i]];
        i := i + 1;
      }
      assert list[..i] == list;
    }

    /** `_insertRecord`: file `rec` under the counter's current value. */
    method InsertRecord(rec: Record)
      modifies this
      ensures records == B.Insert(old(records), current, rec)
      ensures current == old(current) && currentName == old(currentName) && tests == old(tests)
    {
      records := B.Insert(records, current, rec);
    }

    /** `expect_eq(l, r, msg)`: build the record for the running test and file it. */
    method ExpectEq(l: int, r: int, msg: string)
      modifies this
      ensures records == B.Insert(old(records), current, EqRecord(currentName, Check(l, r, msg)))
      ensures current == old(current) && currentName == old(currentName) && tests == old(tests)
    {
      var rec := EqRecord(currentName, Check(l, r, msg));
      InsertRecord(rec);
    }

    /** `_nextTest`. */
    method NextTest()
      modifies this
      ensures current == Next(old(current))
      ensures currentName == old(currentName) && tests == old(tests) && records == old(records)
    {
      current := Next(current);
    }

    /** A test body: its checks, made one after another. */
    method RunBody(body: seq<Check>)
      modifies this
      ensures records == B.FileAll(old(records), current, Outcomes(currentName, body))
      ensures current == old(current) && currentName == old(currentName) && tests == old(tests)
    {
      ghost var m0 := records;
      var i := 0;
      while i < |body|
        invariant 0 <= i <= |body|
        invariant records == B.FileAll(m0, current, Outcomes(currentName, body[..i]))
        invariant current == old(current) && currentName == old(currentName) && tests == old(tests)
      {
        ExpectEq(body[i].l, body[i].r, body[i].msg);
        OutcomesPrefix(currentName, body, i);
        B.FileAllSnoc(m0, current, Outcomes(currentName, body[..i]), EqRecord(currentName, body[i]));
        i := i + 1;
      }
      assert body[..i] == body;
    }

    /** `_report`: every record of every bucket, keys ascending, counted and written. */
    method Report() returns (s: Summary, out: string)
      ensures s.total == RecordCount(records, 256)
      ensures s.passed == PassCount(records, 256) && s.passed <= s.total
      ensures s.percentage == PercentageOf(s.passed, s.total)
      ensures s.percentage.Some? ==> 0 <= s.percentage.value <= 100
      ensures out == ReportText(records)
    {
      var passed, total, log := Walk();
      PassCountAtMost(records, 256);
      s, out := Summarize(passed, total, log);
    }

    /** The end of `_report`: the summary, and the percentage line after the log. */
    static method Summarize(passed: nat, total: nat, log: string) returns (s: Summary, out: string)
      requires passed <= total
      ensures s == Summary(passed, total, PercentageOf(passed, total))
      ensures s.percentage.Some? ==> 0 <= s.percentage.value <= 100
      ensures out == log + PercentLine(passed, total)
    {
      if total == 0 {
        s := Summary(passed, total, None);
        out := log;
      } else {
        var pct := Percent.CeilPercent(passed, total);
        s := Summary(passed, total, Some(pct));
        out := log + Text.IntToString(pct) + "% of test passed\n";
      }
    }

    /** The loop of `_report` over the keys in ascending order: the records met,
        those that passed, and the text written so far. */
    method Walk() returns (passed: nat, total: nat, out: string)
      ensures total == RecordCount(records, 256)
      ensures passed == PassCount(records, 256)
      ensures out == Log(records, 256)
    {
      passed, total := 0, 0;
      out := "";
      var k := 0;
      while k < 256
        invariant 0 <= k <= 256
        invariant total == RecordCount(records, k)
        invariant passed == PassCount(records, k)
        invariant out == Log(records, k)
      {
        var bucket := B.Bucket(records, k as Byte);
        var p, text := BucketReport(bucket);
        total := total + |bucket|;
        passed := passed + p;
        out := out + text;
        k := k + 1;
      }
    }

    /** The inner loop of `_report` over one bucket. */
    static method BucketReport(bucket: seq<Record>) returns (passed: nat, text: string)
      ensures passed == PassingIn(bucket)
      ensures text == RecordsLog(bucket)
    {
      passed, text := 0, "";
      var j := 0;
      while j < |bucket|
        invariant 0 <= j <= |bucket|
        invariant passed == PassingIn(bucket[..j])
        invariant text == RecordsLog(bucket[..j])
      {
        var rec := bucket[j];
        LogStep(bucket, j, passed, text);
        text := text + RecordText(rec) + "\n";
        if rec.pass {
          passed := passed + 1;
        }
        j := j + 1;
      }
      assert bucket[..j] == bucket;
    }

    /** The step of `run_all` for one test: name the cursor after it, run its
        body, advance the counter. */
    method RunTest(t: Test)
      modifies this
      ensures records == B.FileAll(old(records), old(current), Outcomes(t.name, t.body))
      ensures current == Next(old(current)) && currentName == t.name && tests == old(tests)
    {
      currentName := t.name;
      RunBody(t.body);
      NextTest();
    }

    /** The loop of `run_all`: every registered test in order. */
    method RunTests()
      modifies this
      ensures records == Ran(old(records), tests, |tests|, old(current))
      ensures current == KeyAt(old(current), |tests|)
      ensures currentName == LastName(tests, old(currentName))
      ensures tests == old(tests)
    {
      ghost var start, m0 := current, records;
      var i := 0;
      while i < |tests|
        invariant 0 <= i <= |tests|
        invariant tests == old(tests)
        invariant current == KeyAt(start, i)
        invariant records == Ran(m0, tests, i, start)
        invariant currentName == if i == 0 then old(currentName) else tests[i - 1].name
      {
        RunTest(tests[i]);
        RanStep(m0, tests, i, start);
        KeyAtStep(start, i);
        i := i + 1;
      }
    }

    /** `run_all`: every test in order, then the report when asked for. */
    method RunAll(report: bool) returns (s: Option<Summary>, out: string)
      modifies this
      ensures records == Ran(old(records), tests, |tests|, old(current))
      ensures current == KeyAt(old(current), |tests|)
      ensures currentName == LastName(tests, old(currentName))
      ensures tests == old(tests)
      ensures s.Some? <==> report
      ensures report ==> s.value.total == RecordCount(records, 256)
      ensures report ==> s.value.passed == PassCount(records, 256)
      ensures report ==> s.value.percentage == PercentageOf(s.value.passed, s.value.total)
      ensures out == if report then ReportText(records) else ""
    {
      RunTests();
      if report {
        ghost var m, k, name := records, current, currentName;
        var summary;
        summary, out := Report();
        assert records == m && current == k && currentName == name;
        s := Some(summary);
      } else {
        s, out := None, "";
      }
    }
  }
}
