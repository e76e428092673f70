/** The cron expression parser: from already split words to the masks of a schedule. An error is None. */
module CronParse {
  import opened Common
  import opened Masks
  import opened Strings
  import opened Calendar
  import opened CronNext
  import opened CronComplete

  // Values, parts and fields.

  type Names = map<string, nat>

  const MONTHS: Names := map[
    "jan" := 1, "feb" := 2, "mar" := 3, "apr" := 4, "may" := 5, "jun" := 6,
    "jul" := 7, "aug" := 8, "sep" := 9, "oct" := 10, "nov" := 11, "dec" := 12]

  const WEEKDAYS: Names := map["sun" := 0, "mon" := 1, "tue" := 2, "wed" := 3, "thu" := 4, "fri" := 5, "sat" := 6]

  /** The values a field may name. */
  datatype Range = Range(min: nat, max: nat, names: Names)

  ghost predicate GoodRange(g: Range) {
    g.min <= g.max < 64 && forall name :: name in g.names ==> g.min <= g.names[name] <= g.max
  }

  function ParseValue(s: string, g: Range): (v: Option<nat>)
    ensures GoodRange(g) && v.Some? ==> g.min <= v.value <= g.max
  {
    if ToLower(s) in g.names then Some(g.names[ToLower(s)])
    else
      var v := Atoi(s);
      if v.Some? && g.min <= v.value <= g.max then Some(v.value) else None
  }

  /** The loop bounds and step a part asks for. */
  datatype Stride = Stride(lo: nat, hi: nat, step: nat)

  function ParseStride(part: string, g: Range): Option<Stride> {
    var slash := Find(part, '/');
    var expr := if slash < 0 then part else part[..slash];
    var step := if slash < 0 then Some(1) else Atoi(part[slash + 1..]);
    if part == "" || step.None? || step.value <= 0 then None
    else if expr == "*" then Some(Stride(g.min, g.max, step.value))
    else if '-' in expr then
      var dash := Find(expr, '-');
      var lo, hi := ParseValue(expr[..dash], g), ParseValue(expr[dash + 1..], g);
      if lo.None? || hi.None? || hi.value < lo.value then None else Some(Stride(lo.value, hi.value, step.value))
    else
      var v := ParseValue(expr, g);
      if v.None? then None
      else Some(Stride(v.value, if slash < 0 then v.value else g.max, step.value))
  }

  lemma StrideInRange(part: string, g: Range)
    requires GoodRange(g) && ParseStride(part, g).Some?
    ensures var t := ParseStride(part, g).value; g.min <= t.lo <= t.hi <= g.max && 1 <= t.step <= MAX_INT
  {
    hide Find, ParseValue, Decimal;
  }

  // The loop over v, with the machine integer's wrap-around.

  function Wrap(x: int): int {
    if x > MAX_INT then x - 0x1_0000_0000_0000_0000 else x
  }

  /** lo, lo + step, ... up to hi. */
  function Progression(lo: int, hi: int, step: int): set<nat>
    requires 0 <= lo && 0 < step
    decreases hi - lo
  {
    if lo > hi then {} else {lo} + Progression(lo + step, hi, step)
  }

  /** lo, lo - gap, ... down to 0. */
  function Descending(lo: int, gap: int): set<nat>
    requires 0 < gap
    decreases lo
  {
    if lo < 0 then {} else {lo} + Descending(lo - gap, gap)
  }

  /** How far twice the step falls short of a full turn of the integer. */
  function Shortfall(step: int): int {
    2 * (MAX_INT + 1 - step)
  }

  /** The bits that the loop sets. */
  function StrideBits(t: Stride): set<nat>
    requires 1 <= t.step <= MAX_INT
  {
    if Shortfall(t.step) > t.lo then Progression(t.lo, t.hi, t.step) else Descending(t.lo, Shortfall(t.step))
  }

  lemma {:induction false} ProgressionMeans(lo: int, hi: int, step: int, v: nat)
    requires 0 <= lo && 0 < step
    ensures v in Progression(lo, hi, step) <==> lo <= v <= hi && (v - lo) % step == 0
    decreases hi - lo
  {
    if lo <= hi {
      ProgressionMeans(lo + step, hi, step, v);
      if v < lo + step {
        if lo <= v {
          SmallMod(v - lo, step);
        }
      } else {
        ModStep(v - lo, step);
      }
    }
  }

  lemma {:induction false} DescendingMeans(lo: int, gap: int, v: nat)
    requires 0 < gap
    ensures v in Descending(lo, gap) <==> v <= lo && (lo - v) % gap == 0
    decreases lo
  {
    if 0 <= lo {
      DescendingMeans(lo - gap, gap, v);
      if lo - gap < v {
        if v <= lo {
          SmallMod(lo - v, gap);
        }
      } else {
        ModStep(lo - v, gap);
      }
    }
  }

  lemma SmallMod(a: int, b: int)
    requires 0 <= a < b
    ensures a % b == a
  {
  }

  lemma ModStep(a: int, b: int)
    requires 0 < b <= a
    ensures (a - b) % b == a % b
  {
    var q, r := (a - b) / b, (a - b) % b;
    assert a == (q + 1) * b + r;
    ModUnique(a, b, q + 1, r);
  }

  lemma ModUnique(a: int, b: int, q: int, r: int)
    requires 0 < b && 0 <= r < b && a == q * b + r
    ensures a % b == r
  {
    var p, s := a / b, a % b;
    var d := q - p;
    assert a == p * b + s;
    assert d * b == q * b - p * b;
    Multiple(d, b, s - r);
  }

  lemma Multiple(d: int, b: int, m: int)
    requires d * b == m && 0 < b
    ensures -b < m < b ==> d == 0
  {
    if d > 0 {
      assert (d - 1) * b >= 0;
    } else if d < 0 {
      assert (-d - 1) * b >= 0;
    }
  }

  lemma {:induction false} DescendingBelow(lo: int, gap: int)
    requires 0 < gap
    ensures forall v :: v in Descending(lo, gap) ==> v <= lo
    ensures 0 <= lo ==> lo in Descending(lo, gap)
    decreases lo
  {
    if lo >= 0 {
      DescendingBelow(lo - gap, gap);
    }
  }

  lemma {:induction false} ProgressionWithin(lo: int, hi: int, step: int)
    requires 0 <= lo && 0 < step
    ensures forall v :: v in Progression(lo, hi, step) ==> lo <= v <= hi
    ensures lo <= hi ==> lo in Progression(lo, hi, step)
    decreases hi - lo
  {
    if lo <= hi {
      ProgressionWithin(lo + step, hi, step);
    }
  }

  /** The bits are the arithmetic progression within the bounds exactly when the step is short of half a turn by
      more than half of lo; every step up to 2^63 - 1 - max is. */
  lemma StrideExactIff(t: Stride)
    requires 1 <= t.step <= MAX_INT && t.lo <= t.hi < 64
    ensures StrideBits(t) == Progression(t.lo, t.hi, t.step) <==> Shortfall(t.step) > t.lo
    ensures t.step <= MAX_INT - t.hi ==> Shortfall(t.step) > t.lo
  {
    var gap := Shortfall(t.step);
    ProgressionWithin(t.lo, t.hi, t.step);
    if gap <= t.lo {
      DescendingBelow(t.lo - gap, gap);
      assert t.lo - gap in StrideBits(t);
    }
  }

  /** "10/9223372036854775807" in the day-of-month field allows 0, 2, 4, 6, 8 and 10. */
  lemma WrapWitness()
    ensures StrideBits(Stride(10, 31, MAX_INT)) == {0, 2, 4, 6, 8, 10}
    ensures Progression(10, 31, MAX_INT) == {10}
  {
    assert Shortfall(MAX_INT) == 2;
    assert Descending(4, 2) == {4, 2, 0} by {
      assert Descending(0, 2) == {0} + Descending(-2, 2);
      assert Descending(2, 2) == {2} + Descending(0, 2);
    }
    assert Descending(8, 2) == {8} + ({6} + Descending(4, 2)) by {
      assert Descending(6, 2) == {6} + Descending(4, 2);
    }
  }

  /** The loop variable stays on this orbit: below the overflow it climbs; above it, it alternates between a
      small value and a large negative one, two of which lie one shortfall apart. */
  ghost predicate OnOrbit(t: Stride, v: int)
    requires 1 <= t.step <= MAX_INT
  {
    var k := MAX_INT + 1 - t.step;
    if k > t.lo then v == t.lo || t.lo + t.step <= v <= MAX_INT
    else -128 <= v <= t.lo || t.hi < v <= MAX_INT || -MAX_INT - 1 <= v + k <= t.lo - MAX_INT - 1
  }

  /** The bits still to be set from here. */
  ghost function Remaining(t: Stride, v: int): set<nat>
    requires 1 <= t.step <= MAX_INT && OnOrbit(t, v)
  {
    var k := MAX_INT + 1 - t.step;
    if k > t.lo then Progression(v, t.hi, t.step)
    else if v < -128 then Descending(v + t.step, 2 * k)
    else if v <= t.lo then Descending(v, 2 * k)
    else {}
  }

  ghost function TurnsLeft(t: Stride, v: int): nat
    requires 1 <= t.step <= MAX_INT && OnOrbit(t, v)
  {
    var k := MAX_INT + 1 - t.step;
    if v > t.hi then 0
    else if k > t.lo then t.hi - v + 1
    else if v < -128 then 2 * (v + k + MAX_INT + 1) + 512 - 1
    else 2 * v + 512
  }

  lemma OrbitStep(t: Stride, v: int)
    requires 1 <= t.step <= MAX_INT && t.lo <= t.hi < 64 && OnOrbit(t, v) && v <= t.hi
    ensures OnOrbit(t, Wrap(v + t.step)) && TurnsLeft(t, Wrap(v + t.step)) < TurnsLeft(t, v)
    ensures Remaining(t, v) == SetBit({}, v) + Remaining(t, Wrap(v + t.step))
  {
    var k, next := MAX_INT + 1 - t.step, Wrap(v + t.step);
    if k > t.lo {
      assert Remaining(t, v) == {v} + Progression(v + t.step, t.hi, t.step);
    } else if v < -128 {
      assert Remaining(t, next) == Descending(v + t.step, 2 * k);
    } else if v < 0 {
      assert Remaining(t, v) == {} && Remaining(t, next) == {};
    } else {
      assert Remaining(t, v) == {v} + Descending(v - 2 * k, 2 * k);
      assert Remaining(t, next) == Descending(v - 2 * k, 2 * k);
    }
  }

  lemma OrbitStart(t: Stride)
    requires 1 <= t.step <= MAX_INT && t.lo <= t.hi < 64
    ensures OnOrbit(t, t.lo) && Remaining(t, t.lo) == StrideBits(t)
  {
    var k := MAX_INT + 1 - t.step;
    assert k > t.lo ==> Remaining(t, t.lo) == StrideBits(t);
    assert 2 * k <= t.lo ==> Remaining(t, t.lo) == StrideBits(t);
    if k <= t.lo < 2 * k {
      assert t.lo + t.step > t.hi && Progression(t.lo + t.step, t.hi, t.step) == {};
      assert t.lo - 2 * k < 0 && Descending(t.lo - 2 * k, 2 * k) == {};
      assert Progression(t.lo, t.hi, t.step) == {t.lo} + Progression(t.lo + t.step, t.hi, t.step);
      assert Descending(t.lo, 2 * k) == {t.lo} + Descending(t.lo - 2 * k, 2 * k);
    }
  }

  /** Lines 163-167 of expr.go: the loop ends, wrap-around or not, and sets exactly these bits. */
  method StrideMask(t: Stride) returns (bits: Mask)
    requires 1 <= t.step <= MAX_INT && t.lo <= t.hi < 64
    ensures bits == StrideBits(t)
  {
    var v: int := t.lo;
    bits := {};
    OrbitStart(t);
    while v <= t.hi
      invariant OnOrbit(t, v) && bits + Remaining(t, v) == StrideBits(t)
      decreases TurnsLeft(t, v)
    {
      OrbitStep(t, v);
      assert SetBit(bits, v) == bits + SetBit({}, v);
      bits := SetBit(bits, v);
      v := Wrap(v + t.step);
    }
  }

  // Parts, fields and expressions.

  function PartBits(part: string, g: Range): Option<set<nat>>
    requires GoodRange(g)
  {
    var t := ParseStride(part, g);
    if t.None? then None else StrideInRange(part, g); Some(StrideBits(t.value))
  }

  /** parsePart. */
  method ParsePart(part: string, g: Range) returns (bits: Option<Mask>)
    requires GoodRange(g)
    ensures bits == PartBits(part, g)
  {
    var t := ParseStride(part, g);
    if t.None? {
      return None;
    }
    StrideInRange(part, g);
    var mask := StrideMask(t.value);
    return Some(mask);
  }

  function PartsBits(parts: seq<string>, g: Range): Option<set<nat>>
    requires GoodRange(g)
  {
    if parts == [] then Some({})
    else
      var front, last := PartsBits(parts[..|parts| - 1], g), PartBits(parts[|parts| - 1], g);
      if front.None? || last.None? then None else Some(front.value + last.value)
  }

  function FieldBits(field: string, g: Range): Option<set<nat>>
    requires GoodRange(g)
  {
    PartsBits(Split(field, ','), g)
  }

  lemma {:induction false} PartsFail(parts: seq<string>, g: Range, k: nat)
    requires GoodRange(g) && k <= |parts| && PartsBits(parts[..k], g).None?
    ensures PartsBits(parts, g).None?
    decreases |parts|
  {
    if k < |parts| {
      var front := parts[..|parts| - 1];
      assert front[..k] == parts[..k];
      PartsFail(front, g, k);
    } else {
      assert parts[..k] == parts;
    }
  }

  /** parseField: the first bad part fails the field; otherwise the parts' bits are joined. */
  method ParseField(field: string, g: Range) returns (bits: Option<Mask>)
    requires GoodRange(g)
    ensures bits == FieldBits(field, g)
  {
    var parts := Split(field, ',');
    var mask: Mask := {};
    for k := 0 to |parts|
      invariant PartsBits(parts[..k], g) == Some(mask)
    {
      var b := ParsePart(parts[k], g);
      assert parts[..k + 1][..k] == parts[..k];
      if b.None? {
        PartsFail(parts, g, k + 1);
        return None;
      }
      mask := mask + b.value;
    }
    assert parts[..|parts|] == parts;
    return Some(mask);
  }

  const MINUTE := Range(0, 59, map[])
  const HOUR := Range(0, 23, map[])
  const DAY_OF_MONTH := Range(1, 31, map[])
  const MONTH := Range(1, 12, MONTHS)
  const DAY_OF_WEEK := Range(0, 7, WEEKDAYS)

  lemma GoodRanges()
    ensures GoodRange(MINUTE) && GoodRange(HOUR) && GoodRange(DAY_OF_MONTH) && GoodRange(MONTH) && GoodRange(DAY_OF_WEEK)
  {
  }

  function Alias(word: string): Option<string> {
    if word == "@hourly" then Some("0 * * * *")
    else if word == "@daily" || word == "@midnight" then Some("0 0 * * *")
    else if word == "@weekly" then Some("0 0 * * 0")
    else if word == "@monthly" then Some("0 0 1 * *")
    else if word == "@yearly" || word == "@annually" then Some("0 0 1 1 *")
    else None
  }

  /** The fields of an expression or of what its alias stands for. */
  function Words(spec: string): seq<string> {
    var alias := Alias(ToLower(TrimSpace(spec)));
    Fields(if alias.Some? then alias.value else spec)
  }

  /** In the day-of-week field 7 also means Sunday, 0. */
  function WithSunday(dow: set<nat>): set<nat> {
    if 7 in dow then dow + {0} else dow
  }

  /** What five words stand for. */
  function ScheduleOf(f: seq<string>): Option<Schedule> {
    GoodRanges();
    if |f| != 5 then None
    else
      var min, hour, dom, month, dow :=
        FieldBits(f[0], MINUTE), FieldBits(f[1], HOUR), FieldBits(f[2], DAY_OF_MONTH), FieldBits(f[3], MONTH),
        FieldBits(f[4], DAY_OF_WEEK);
      if min.None? || hour.None? || dom.None? || month.None? || dow.None? then None
      else Some(Schedule(min.value, hour.value, dom.value, month.value, WithSunday(dow.value), f[2] == "*", f[4] == "*"))
  }

  method Expr(spec: string) returns (s: Option<Schedule>)
    ensures s == ScheduleOf(Words(spec))
  {
    GoodRanges();
    var f := Words(spec);
    if |f| != 5 {
      return None;
    }
    var min := ParseField(f[0], MINUTE);
    if min.None? {
      return None;
    }
    var hour := ParseField(f[1], HOUR);
    if hour.None? {
      return None;
    }
    var dom := ParseField(f[2], DAY_OF_MONTH);
    if dom.None? {
      return None;
    }
    var month := ParseField(f[3], MONTH);
    if month.None? {
      return None;
    }
    var dow := ParseField(f[4], DAY_OF_WEEK);
    if dow.None? {
      return None;
    }
    var days := dow.value;
    if 7 in days {
      days := SetBit(days, 0);
    }
    return Some(Schedule(min.value, hour.value, dom.value, month.value, days, f[2] == "*", f[4] == "*"));
  }

  // What an accepted field means.

  /** One of lo, lo + step, ... up to hi. */
  predicate OnStride(t: Stride, v: nat) {
    0 < t.step && t.lo <= v <= t.hi && (v - t.lo) % t.step == 0
  }

  /** The step does not make the loop variable wrap into range. */
  predicate NoWrap(t: Stride) {
    Shortfall(t.step) > t.lo
  }

  /** A bit that the loop sets: when the step wraps into range, in steps of the shortfall downwards. */
  predicate SetOn(t: Stride, v: nat) {
    if NoWrap(t) then OnStride(t, v)
    else 0 < Shortfall(t.step) && v <= t.lo && (t.lo - v) % Shortfall(t.step) == 0
  }

  /** The part asks for the value. */
  predicate Asked(part: string, g: Range, v: nat) {
    ParseStride(part, g).Some? && OnStride(ParseStride(part, g).value, v)
  }

  predicate Tame(part: string, g: Range) {
    ParseStride(part, g).Some? && NoWrap(ParseStride(part, g).value)
  }

  /** The part sets the value's bit. */
  predicate SetBy(part: string, g: Range, v: nat) {
    ParseStride(part, g).Some? && SetOn(ParseStride(part, g).value, v)
  }

  ghost predicate AskedByOne(parts: seq<string>, g: Range, v: nat) {
    exists k :: 0 <= k < |parts| && Asked(parts[k], g, v)
  }

  ghost predicate SetByOne(parts: seq<string>, g: Range, v: nat) {
    exists k :: 0 <= k < |parts| && SetBy(parts[k], g, v)
  }

  ghost predicate AllTame(parts: seq<string>, g: Range) {
    forall k :: 0 <= k < |parts| ==> Tame(parts[k], g)
  }

  /** The bits of an accepted part. */
  lemma PartMeans(part: string, g: Range, v: nat)
    requires GoodRange(g) && PartBits(part, g).Some?
    ensures v in PartBits(part, g).value <==> SetBy(part, g, v)
    ensures Asked(part, g, v) ==> SetBy(part, g, v)
    ensures SetBy(part, g, v) ==> v <= g.max
  {
    hide ParseStride, StrideBits, OnStride, SetOn;
    StrideInRange(part, g);
    StrideMeans(ParseStride(part, g).value, v);
  }

  lemma StrideMeans(t: Stride, v: nat)
    requires t.lo <= t.hi < 64 && 1 <= t.step <= MAX_INT
    ensures v in StrideBits(t) <==> SetOn(t, v)
    ensures OnStride(t, v) ==> SetOn(t, v)
    ensures SetOn(t, v) ==> v <= t.hi
  {
    if NoWrap(t) {
      ProgressionMeans(t.lo, t.hi, t.step, v);
    } else {
      DescendingMeans(t.lo, Shortfall(t.step), v);
      if t.lo < v <= t.hi {
        LargeStep(v - t.lo, t.step);
      }
    }
  }

  lemma LargeStep(d: int, step: int)
    requires 0 < d < step
    ensures d % step != 0
  {
  }

  /** A part's bits are exactly what it asks for if and only if its step does not wrap into range. */
  lemma PartExact(part: string, g: Range)
    requires GoodRange(g) && PartBits(part, g).Some?
    ensures (forall v: nat :: v in PartBits(part, g).value <==> Asked(part, g, v)) <==> Tame(part, g)
  {
    hide ParseStride, StrideBits, OnStride, NoWrap;
    StrideInRange(part, g);
    var t := ParseStride(part, g).value;
    if NoWrap(t) {
      forall v: nat
        ensures v in PartBits(part, g).value <==> Asked(part, g, v)
      {
        StrideMeans(t, v);
      }
    } else {
      var stray := Stray(t);
      assert stray in PartBits(part, g).value && !Asked(part, g, stray);
    }
  }

  lemma Stray(t: Stride) returns (v: nat)
    requires t.lo <= t.hi < 64 && 1 <= t.step <= MAX_INT && !NoWrap(t)
    ensures v in StrideBits(t) && !OnStride(t, v)
  {
    v := t.lo - Shortfall(t.step);
    DescendingMeans(t.lo, Shortfall(t.step), v);
  }

  lemma SetBySplit(parts: seq<string>, g: Range, v: nat)
    requires parts != []
    ensures SetByOne(parts, g, v) <==> SetByOne(parts[..|parts| - 1], g, v) || SetBy(parts[|parts| - 1], g, v)
  {
    hide SetBy;
    var front := parts[..|parts| - 1];
    if k :| 0 <= k < |front| && SetBy(front[k], g, v) {
      assert SetBy(parts[k], g, v);
    }
    if k :| 0 <= k < |parts| && SetBy(parts[k], g, v) {
      assert k < |front| ==> SetBy(front[k], g, v);
    }
  }

  lemma {:induction false} PartsMean(parts: seq<string>, g: Range, v: nat)
    requires GoodRange(g) && PartsBits(parts, g).Some?
    ensures v in PartsBits(parts, g).value <==> SetByOne(parts, g, v)
    decreases |parts|
  {
    if parts != [] {
      hide SetBy, SetByOne;
      PartsMean(parts[..|parts| - 1], g, v);
      PartMeans(parts[|parts| - 1], g, v);
      SetBySplit(parts, g, v);
    } else {
      assert !SetByOne(parts, g, v);
    }
  }

  lemma {:induction false} PartsAccepted(parts: seq<string>, g: Range, k: nat)
    requires GoodRange(g) && PartsBits(parts, g).Some? && k < |parts|
    ensures PartBits(parts[k], g).Some?
    decreases |parts|
  {
    if k < |parts| - 1 {
      PartsAccepted(parts[..|parts| - 1], g, k);
    }
  }

  /** An accepted field allows the union of what its parts set, never less than they ask for. */
  lemma FieldMeans(field: string, g: Range, v: nat)
    requires GoodRange(g) && FieldBits(field, g).Some?
    ensures v in FieldBits(field, g).value <==> SetByOne(Split(field, ','), g, v)
    ensures v in FieldBits(field, g).value ==> v <= g.max
    ensures AskedByOne(Split(field, ','), g, v) ==> v in FieldBits(field, g).value && g.min <= v
  {
    var parts := Split(field, ',');
    PartsMean(parts, g, v);
    forall k | 0 <= k < |parts|
      ensures Asked(parts[k], g, v) ==> SetBy(parts[k], g, v) && g.min <= v
      ensures SetBy(parts[k], g, v) ==> v <= g.max
    {
      PartsAccepted(parts, g, k);
      PartMeans(parts[k], g, v);
      StrideInRange(parts[k], g);
    }
  }

  /** Whatever a wrapping part sets beside what it asks for, another part asks for. */
  ghost predicate NoStrays(parts: seq<string>, g: Range) {
    forall k, v: nat :: 0 <= k < |parts| && SetBy(parts[k], g, v) && !Tame(parts[k], g) ==> AskedByOne(parts, g, v)
  }

  /** An accepted field allows exactly the union of its parts' progressions if and only if no wrapping step adds
      a value to it; in particular when no step wraps. */
  lemma FieldExact(field: string, g: Range)
    requires GoodRange(g) && FieldBits(field, g).Some?
    ensures (forall v: nat :: v in FieldBits(field, g).value <==> AskedByOne(Split(field, ','), g, v))
            <==> NoStrays(Split(field, ','), g)
    ensures AllTame(Split(field, ','), g) ==> NoStrays(Split(field, ','), g)
  {
    var parts := Split(field, ',');
    if NoStrays(parts, g) {
      forall v: nat
        ensures v in FieldBits(field, g).value <==> AskedByOne(parts, g, v)
      {
        hide *;
        FieldMeans(field, g, v);
        if SetByOne(parts, g, v) {
          StraysOrAsked(parts, g, v);
        }
      }
    } else {
      hide FieldBits, Tame, AskedByOne, SetBy;
      var k, v: nat :| 0 <= k < |parts| && SetBy(parts[k], g, v) && !Tame(parts[k], g) && !AskedByOne(parts, g, v);
      FieldMeans(field, g, v);
      assert SetByOne(parts, g, v);
    }
  }

  lemma StraysOrAsked(parts: seq<string>, g: Range, v: nat)
    requires NoStrays(parts, g) && SetByOne(parts, g, v)
    ensures AskedByOne(parts, g, v)
  {
    var k :| 0 <= k < |parts| && SetBy(parts[k], g, v);
    if Tame(parts[k], g) {
      assert Asked(parts[k], g, v);
    }
  }

  /** Whatever the steps, an accepted field allows something in its range, and nothing above it. */
  lemma {:induction false} PartsNonEmpty(parts: seq<string>, g: Range)
    requires GoodRange(g) && PartsBits(parts, g).Some?
    ensures parts != [] ==> exists v :: v in PartsBits(parts, g).value && g.min <= v <= g.max
    ensures forall v :: v in PartsBits(parts, g).value ==> v <= g.max
    decreases |parts|
  {
    if parts != [] {
      var part := parts[|parts| - 1];
      PartsNonEmpty(parts[..|parts| - 1], g);
      StrideInRange(part, g);
      var t := ParseStride(part, g).value;
      ProgressionWithin(t.lo, t.hi, t.step);
      DescendingBelow(t.lo, if Shortfall(t.step) > 0 then Shortfall(t.step) else 1);
      assert t.lo in PartBits(part, g).value;
      assert t.lo in PartsBits(parts, g).value && g.min <= t.lo <= g.max;
    }
  }

  /** Every schedule that Expr returns is one Next can search. */
  lemma ExprIsParsed(f: seq<string>)
    requires ScheduleOf(f).Some?
    ensures Parsed(ScheduleOf(f).value)
  {
    GoodRanges();
    var s := ScheduleOf(f).value;
    PartsNonEmpty(Split(f[0], ','), MINUTE);
    PartsNonEmpty(Split(f[1], ','), HOUR);
    PartsNonEmpty(Split(f[2], ','), DAY_OF_MONTH);
    PartsNonEmpty(Split(f[3], ','), MONTH);
    PartsNonEmpty(Split(f[4], ','), DAY_OF_WEEK);
    assert exists v :: v in s.dow && v < 7 by {
      var v :| v in FieldBits(f[4], DAY_OF_WEEK).value && 0 <= v <= 7;
      assert v in s.dow && (v == 7 ==> 0 in s.dow);
    }
  }

  /** From text to answer: when the promise that "never" means never fails for an expression. */
  lemma ExprNeverIsWrongIff(spec: string, after: Instant, r: Option<int>)
    requires ScheduleOf(Words(spec)).Some? && IsNext(ScheduleOf(Words(spec)).value, after, r)
    ensures var s := ScheduleOf(Words(spec)).value;
      r.None? && FiresAgain(s, after) <==> LeapDayOnly(s) && !LeapDayInWindow(s, after)
  {
    ExprIsParsed(Words(spec));
    NeverIsWrongIff(ScheduleOf(Words(spec)).value, after, r);
  }

  // What an expression means.

  ghost predicate FieldSets(field: string, g: Range, v: nat) {
    SetByOne(Split(field, ','), g, v)
  }

  /** Sunday may be set as 0 or as 7. */
  ghost predicate WeekdaySet(field: string, weekday: nat) {
    FieldSets(field, DAY_OF_WEEK, weekday) || (weekday == 0 && FieldSets(field, DAY_OF_WEEK, 7))
  }

  /** What the month, hour and minute words say about a minute. */
  ghost predicate TimeSet(f: seq<string>, t: int)
    requires |f| == 5
  {
    && FieldSets(f[0], MINUTE, MinuteOf(t))
    && FieldSets(f[1], HOUR, HourOf(t))
    && FieldSets(f[3], MONTH, DateOf(DayOf(t)).month)
  }

  /** What the two day words say about its day. */
  ghost predicate DayOfMonthSet(f: seq<string>, t: int)
    requires |f| == 5
  {
    FieldSets(f[2], DAY_OF_MONTH, DateOf(DayOf(t)).day)
  }

  ghost predicate DayOfWeekSet(f: seq<string>, t: int)
    requires |f| == 5
  {
    WeekdaySet(f[4], Weekday(DayOf(t)))
  }

  lemma DowMeans(field: string, v: nat)
    requires GoodRange(DAY_OF_WEEK) && FieldBits(field, DAY_OF_WEEK).Some?
    ensures v in WithSunday(FieldBits(field, DAY_OF_WEEK).value) <==> WeekdaySet(field, v)
  {
    hide FieldBits, SetByOne, Split, GoodRange;
    FieldMeans(field, DAY_OF_WEEK, v);
    FieldMeans(field, DAY_OF_WEEK, 7);
  }

  /** From words to minutes: an expression's schedule matches exactly the minutes whose time and month its words
      set and whose day they set: either day word is enough when both are restricted, and a "*" leaves the
      other one to decide. */
  lemma ExprMeans(words: seq<string>, t: int)
    requires ScheduleOf(words).Some?
    ensures |words| == 5
    ensures words[2] != "*" && words[4] != "*" ==>
      (Matches(ScheduleOf(words).value, t) <==> TimeSet(words, t) && (DayOfMonthSet(words, t) || DayOfWeekSet(words, t)))
    ensures words[2] == "*" && words[4] != "*" ==>
      (Matches(ScheduleOf(words).value, t) <==> TimeSet(words, t) && DayOfWeekSet(words, t))
    ensures words[2] != "*" && words[4] == "*" ==>
      (Matches(ScheduleOf(words).value, t) <==> TimeSet(words, t) && DayOfMonthSet(words, t))
    ensures words[2] == "*" && words[4] == "*" ==> (Matches(ScheduleOf(words).value, t) <==> TimeSet(words, t))
  {
    hide FieldBits, SetByOne, Split, WithSunday;
    GoodRanges();
    var date := DateOf(DayOf(t));
    FieldMeans(words[0], MINUTE, MinuteOf(t));
    FieldMeans(words[1], HOUR, HourOf(t));
    FieldMeans(words[2], DAY_OF_MONTH, date.day);
    FieldMeans(words[3], MONTH, date.month);
    DowMeans(words[4], Weekday(DayOf(t)));
  }

  /** Without wrapping steps, what a field sets is what it asks for. */
  lemma TameFieldAsks(field: string, g: Range, v: nat)
    requires AllTame(Split(field, ','), g)
    ensures FieldSets(field, g, v) <==> AskedByOne(Split(field, ','), g, v)
  {
    var parts := Split(field, ',');
    if k :| 0 <= k < |parts| && SetBy(parts[k], g, v) {
      assert Asked(parts[k], g, v);
    }
    if k :| 0 <= k < |parts| && Asked(parts[k], g, v) {
      assert SetBy(parts[k], g, v);
    }
  }

  // Comma lists reach every set of values.

  function CommaList(vs: seq<nat>): string
    requires vs != []
  {
    if |vs| == 1 then Numeral(vs[0]) else Numeral(vs[0]) + "," + CommaList(vs[1..])
  }

  lemma NumeralPart(v: nat, g: Range)
    requires GoodRange(g) && g.min <= v <= g.max && Numeral(v) !in g.names
    ensures PartBits(Numeral(v), g) == Some({v})
  {
    hide Numeral, Atoi, ToLower, Find;
    NumeralIsPlain(v);
    NumeralReads(v);
    assert ParseStride(Numeral(v), g) == Some(Stride(v, v, 1));
    assert Progression(v, v, 1) == {v} + Progression(v + 1, v, 1) && Progression(v + 1, v, 1) == {};
    assert Shortfall(1) > v;
    assert StrideBits(Stride(v, v, 1)) == {v};
  }

  lemma SplitFirst(s: string, rest: string)
    requires ',' !in s
    ensures Split(s + "," + rest, ',') == [s] + Split(rest, ',')
    ensures Split(s, ',') == [s]
  {
    var all := s + "," + rest;
    FindAfter(s, "," + rest, ',');
    assert all == s + ("," + rest);
    assert all[..|s|] == s && all[|s| + 1..] == rest;
    assert Find(s, ',') < 0;
  }

  lemma PartsSingle(part: string, g: Range)
    requires GoodRange(g) && PartBits(part, g).Some?
    ensures PartsBits([part], g) == PartBits(part, g)
  {
    assert [part][..0] == [];
    assert {} + PartBits(part, g).value == PartBits(part, g).value;
  }

  /** The bits of several parts, from the bits of each. */
  function AllBits(bits: seq<Option<set<nat>>>): Option<set<nat>> {
    if bits == [] then Some({})
    else
      var front, last := AllBits(bits[..|bits| - 1]), bits[|bits| - 1];
      if front.None? || last.None? then None else Some(front.value + last.value)
  }

  function Each(parts: seq<string>, g: Range): seq<Option<set<nat>>>
    requires GoodRange(g)
  {
    seq(|parts|, i requires 0 <= i < |parts| => PartBits(parts[i], g))
  }

  lemma EachFront(parts: seq<string>, g: Range)
    requires GoodRange(g)
    ensures |Each(parts, g)| == |parts|
    ensures parts != [] ==>
      var last := |parts| - 1;
      Each(parts, g)[..last] == Each(parts[..last], g) && Each(parts, g)[last] == PartBits(parts[last], g)
  {
    hide PartBits, GoodRange;
  }

  lemma {:induction false} PartsJoined(parts: seq<string>, g: Range)
    requires GoodRange(g)
    ensures PartsBits(parts, g) == AllBits(Each(parts, g))
    decreases |parts|
  {
    hide Each, PartBits, GoodRange;
    EachFront(parts, g);
    if parts != [] {
      PartsJoined(parts[..|parts| - 1], g);
    } else {
      assert PartsBits(parts, g) == Some({});
    }
  }

  lemma {:induction false} JoinedPrepend(first: set<nat>, bits: seq<Option<set<nat>>>)
    requires AllBits(bits).Some?
    ensures AllBits([Some(first)] + bits) == Some(first + AllBits(bits).value)
    decreases |bits|
  {
    var all := [Some(first)] + bits;
    if bits == [] {
      assert all[..0] == [];
      assert AllBits(bits) == Some({});
      assert AllBits(all).value == first + AllBits(bits).value;
    } else {
      assert all[..|all| - 1] == [Some(first)] + bits[..|bits| - 1];
      JoinedPrepend(first, bits[..|bits| - 1]);
      assert all[|all| - 1] == bits[|bits| - 1];
      assert AllBits(all).value == first + AllBits(bits).value;
    }
  }

  lemma EachPrepend(part: string, parts: seq<string>, g: Range)
    requires GoodRange(g)
    ensures Each([part] + parts, g) == [PartBits(part, g)] + Each(parts, g)
  {
    hide PartBits, GoodRange;
  }

  lemma PartsPrepend(part: string, parts: seq<string>, g: Range)
    requires GoodRange(g) && PartBits(part, g).Some? && PartsBits(parts, g).Some?
    ensures PartsBits([part] + parts, g) == Some(PartBits(part, g).value + PartsBits(parts, g).value)
  {
    hide PartsBits, PartBits, AllBits, Each, GoodRange;
    PartsJoined(parts, g);
    PartsJoined([part] + parts, g);
    EachPrepend(part, parts, g);
    JoinedPrepend(PartBits(part, g).value, Each(parts, g));
  }

  function ToSet(vs: seq<nat>): set<nat> {
    set v | v in vs
  }

  /** The comma list of any non-empty sequence of values in range parses to exactly those values. */
  lemma {:induction false} CommaListParses(vs: seq<nat>, g: Range)
    requires GoodRange(g) && vs != []
    requires forall k :: 0 <= k < |vs| ==> g.min <= vs[k] <= g.max && Numeral(vs[k]) !in g.names
    ensures FieldBits(CommaList(vs), g) == Some(ToSet(vs))
    decreases |vs|
  {
    NumeralPart(vs[0], g);
    NumeralIsPlain(vs[0]);
    if |vs| == 1 {
      SplitFirst(Numeral(vs[0]), "");
      PartsSingle(Numeral(vs[0]), g);
      assert ToSet(vs) == {vs[0]};
    } else {
      CommaListParses(vs[1..], g);
      SplitFirst(Numeral(vs[0]), CommaList(vs[1..]));
      PartsPrepend(Numeral(vs[0]), Split(CommaList(vs[1..]), ','), g);
      assert ToSet(vs) == {vs[0]} + ToSet(vs[1..]);
    }
  }

  /** Names do not look like numbers. */
  ghost predicate WordNames(g: Range) {
    forall name :: name in g.names ==> name != "" && !IsDigit(name[0])
  }

  lemma MonthNames()
    ensures WordNames(MONTH)
  {
  }

  lemma WeekdayNames()
    ensures WordNames(DAY_OF_WEEK)
  {
  }

  /** Every non-empty set of values in range is some field's meaning. */
  lemma EverySetIsReached(s: set<nat>, g: Range)
    requires GoodRange(g) && WordNames(g) && s != {} && forall v :: v in s ==> g.min <= v <= g.max
    ensures exists field :: FieldBits(field, g) == Some(s)
  {
    var vs := Listed(s);
    forall k | 0 <= k < |vs|
      ensures g.min <= vs[k] <= g.max && Numeral(vs[k]) !in g.names
    {
      assert vs[k] in ToSet(vs);
      assert IsDigit(Numeral(vs[k])[0]);
    }
    CommaListParses(vs, g);
  }

  /** In particular for each of the five fields. */
  lemma EveryFieldReachesEverySet(s: set<nat>, g: Range)
    requires g == MINUTE || g == HOUR || g == DAY_OF_MONTH || g == MONTH || g == DAY_OF_WEEK
    requires s != {} && forall v :: v in s ==> g.min <= v <= g.max
    ensures GoodRange(g) && exists field :: FieldBits(field, g) == Some(s)
  {
    hide FieldBits;
    GoodRanges();
    MonthNames();
    WeekdayNames();
    assert WordNames(MINUTE) && WordNames(HOUR) && WordNames(DAY_OF_MONTH);
    EverySetIsReached(s, g);
  }

  lemma {:induction false} Listed(s: set<nat>) returns (vs: seq<nat>)
    ensures ToSet(vs) == s
    ensures s != {} ==> vs != []
    decreases s
  {
    if s == {} {
      vs := [];
    } else {
      var v :| v in s;
      var rest := Listed(s - {v});
      vs := [v] + rest;
      assert ToSet(vs) == {v} + ToSet(rest);
    }
  }

  // The expression of the missed leap day.

  lemma OneNumber(v: nat, g: Range)
    requires GoodRange(g) && g.min <= v <= g.max && Numeral(v) !in g.names
    ensures FieldBits(Numeral(v), g) == Some({v})
  {
    hide FieldBits, Numeral;
    assert CommaList([v]) == Numeral(v);
    CommaListParses([v], g);
    assert ToSet([v]) == {v};
  }

  lemma Star(g: Range)
    requires GoodRange(g)
    ensures FieldBits("*", g).Some?
    ensures forall v: nat :: v in FieldBits("*", g).value <==> g.min <= v <= g.max
  {
    assert ParseStride("*", g) == Some(Stride(g.min, g.max, 1));
    assert Shortfall(1) > g.min;
    SplitFirst("*", "");
    PartsSingle("*", g);
    forall v: nat
      ensures v in FieldBits("*", g).value <==> g.min <= v <= g.max
    {
      ProgressionMeans(g.min, g.max, 1, v);
    }
  }

  lemma EveryWeekday()
    ensures FieldBits("*", DAY_OF_WEEK) == Some({0, 1, 2, 3, 4, 5, 6, 7})
  {
    hide FieldBits;
    GoodRanges();
    Star(DAY_OF_WEEK);
    assert FieldBits("*", DAY_OF_WEEK).value == {0, 1, 2, 3, 4, 5, 6, 7};
  }

  lemma AliasStarts(word: string)
    requires Alias(word).Some?
    ensures word != "" && word[0] == '@'
  {
  }

  lemma OrdinaryText(spec: string)
    requires spec != "" && !IsSpace(spec[0]) && spec[0] != '@'
    ensures Words(spec) == Fields(spec)
  {
    hide Alias, ToLower, TrimSpace, Fields;
    TrimKeepsFirst(spec);
    if Alias(ToLower(TrimSpace(spec))).Some? {
      AliasStarts(ToLower(TrimSpace(spec)));
    }
    assert ToLower(TrimSpace(spec))[0] != '@';
  }

  lemma LeapExpression()
    ensures ScheduleOf(Words("0 0 29 2 *")) == Some(LEAP_MIDNIGHT)
  {
    hide FieldBits, Words, Fields;
    GoodRanges();
    MonthNames();
    assert Numeral(0) == "0" && Numeral(29) == "29" && Numeral(2) == "2";
    OneNumber(0, MINUTE);
    OneNumber(0, HOUR);
    OneNumber(29, DAY_OF_MONTH);
    OneNumber(2, MONTH);
    EveryWeekday();
    assert WithSunday({0, 1, 2, 3, 4, 5, 6, 7}) == {0, 1, 2, 3, 4, 5, 6, 7};
    LeapWords();
  }

  lemma LeapWords()
    ensures Words("0 0 29 2 *") == ["0", "0", "29", "2", "*"]
  {
    hide Words, Fields;
    var words := ["0", "0", "29", "2", "*"];
    OrdinaryText("0 0 29 2 *");
    FieldsOfJoined(words);
    assert Joined(words) == "0 0 29 2 *" by {
      assert words[1..][1..][1..][1..] == ["*"];
    }
  }

  // The parts with a step.

  /** "lo/step" goes from lo to the end of the range. */
  lemma StepPart(lo: nat, step: nat, g: Range)
    requires GoodRange(g) && g.min <= lo <= g.max && Numeral(lo) !in g.names && 1 <= step <= MAX_INT
    ensures ParseStride(Numeral(lo) + "/" + Numeral(step), g) == Some(Stride(lo, g.max, step))
  {
    hide Numeral, Atoi, ToLower, Find;
    NumeralIsPlain(lo);
    NumeralReads(lo);
    NumeralReads(step);
    var part := Numeral(lo) + "/" + Numeral(step);
    assert part == Numeral(lo) + ("/" + Numeral(step));
    FindAfter(Numeral(lo), "/" + Numeral(step), '/');
    FindFirst("/" + Numeral(step), '/');
    assert part[..|Numeral(lo)|] == Numeral(lo) && part[|Numeral(lo)| + 1..] == Numeral(step);
    assert ParseValue(Numeral(lo), g) == Some(lo);
  }

  lemma WrappingNumeral()
    ensures Numeral(MAX_INT) == "9223372036854775807"
  {
    assert Numeral(9) == "9";
    hide Numeral;
    NextThree(9, 2, 2, 3);
    NextThree(9223, 3, 7, 2);
    NextThree(9223372, 0, 3, 6);
    NextThree(9223372036, 8, 5, 4);
    NextThree(9223372036854, 7, 7, 5);
    NextThree(9223372036854775, 8, 0, 7);
  }

  lemma WrappingStride()
    ensures ParseStride("10/9223372036854775807", DAY_OF_MONTH) == Some(Stride(10, 31, MAX_INT))
  {
    GoodRanges();
    assert Numeral(10) == "10";
    hide Numeral, ParseStride;
    WrappingNumeral();
    assert "10/9223372036854775807" == "10" + "/" + "9223372036854775807";
    StepPart(10, MAX_INT, DAY_OF_MONTH);
  }

  /** The witness as text: this day-of-month part is accepted, asks for the 10th alone, and sets more. */
  lemma WrappingPart()
    ensures GoodRange(DAY_OF_MONTH) && PartBits("10/9223372036854775807", DAY_OF_MONTH) == Some({0, 2, 4, 6, 8, 10})
    ensures forall v: nat :: Asked("10/9223372036854775807", DAY_OF_MONTH, v) <==> v == 10
  {
    hide ParseStride, StrideBits;
    GoodRanges();
    WrappingStride();
    WrapWitness();
    assert PartBits("10/9223372036854775807", DAY_OF_MONTH) == Some(StrideBits(Stride(10, 31, MAX_INT)));
    forall v: nat
      ensures Asked("10/9223372036854775807", DAY_OF_MONTH, v) <==> v == 10
    {
      if 10 < v <= 31 {
        LargeStep(v - 10, MAX_INT);
      }
    }
  }
}
