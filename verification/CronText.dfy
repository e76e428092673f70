/** The forms of a cron field on the page: what each text of a part means, and which texts are refused. */
module CronText {
  import opened Common
  import opened Masks
  import opened Strings
  import opened Calendar
  import opened CronNext
  import opened CronParse

  /** A number or a name that stands for a value of the range. */
  predicate ValueText(x: string, g: Range, a: nat) {
    ParseValue(x, g) == Some(a) && x != "" && x != "*" && '/' !in x && '-' !in x
  }

  lemma NumeralIsValue(v: nat, g: Range)
    requires g.min <= v <= g.max <= MAX_INT && Numeral(v) !in g.names
    ensures ValueText(Numeral(v), g, v)
  {
    hide Numeral, Atoi, ToLower;
    NumeralIsPlain(v);
    NumeralReads(v);
  }

  // Where a part is cut.

  lemma CutAt(x: string, c: char, y: string)
    requires c !in x
    ensures var s := x + [c] + y; Find(s, c) == |x| && s[..|x|] == x && s[|x| + 1..] == y
  {
    var s := x + [c] + y;
    assert s == x + ([c] + y);
    FindAfter(x, [c] + y, c);
    FindFirst([c] + y, c);
  }

  lemma NoCut(x: string, c: char)
    requires c !in x
    ensures Find(x, c) < 0
  {
  }

  // The forms.

  /** A part is one of these expressions, alone or with a step. */
  datatype Form = Every | From(lo: nat) | Between(lo: nat, hi: nat)

  /** The text of a form; the values are written as numbers or names. */
  ghost predicate Spells(e: string, g: Range, form: Form) {
    match form
    case Every => e == "*"
    case From(lo) => ValueText(e, g, lo)
    case Between(lo, hi) => lo <= hi && exists x, y :: SpellsRange(e, g, x, y, lo, hi)
  }

  predicate SpellsRange(e: string, g: Range, x: string, y: string, lo: nat, hi: nat) {
    ValueText(x, g, lo) && ValueText(y, g, hi) && e == x + "-" + y
  }

  function FirstOf(g: Range, form: Form): nat {
    match form
    case Every => g.min
    case From(lo) => lo
    case Between(lo, _) => lo
  }

  /** A single value with a step runs to the end of the range. */
  function LastOf(g: Range, form: Form, stepped: bool): nat {
    match form
    case Every => g.max
    case From(lo) => if stepped then g.max else lo
    case Between(_, hi) => hi
  }

  lemma RangeIsCut(e: string, g: Range, x: string, y: string, lo: nat, hi: nat)
    requires SpellsRange(e, g, x, y, lo, hi)
    ensures '/' !in e && '-' in e && e != "*" && e != "" && Find(e, '-') == |x|
    ensures e[..|x|] == x && e[|x| + 1..] == y
  {
    hide ParseValue;
    CutAt(x, '-', y);
    assert e[|x|] == '-';
  }

  lemma Alone(e: string, g: Range, form: Form)
    requires Spells(e, g, form)
    ensures ParseStride(e, g) == Some(Stride(FirstOf(g, form), LastOf(g, form, false), 1))
  {
    hide ParseValue, Find, Atoi;
    if form.Between? {
      var x, y :| SpellsRange(e, g, x, y, form.lo, form.hi);
      RangeIsCut(e, g, x, y, form.lo, form.hi);
    }
    NoCut(e, '/');
  }

  lemma Stepped(e: string, g: Range, form: Form, st: string, n: nat)
    requires Spells(e, g, form) && Atoi(st) == Some(n) && 1 <= n
    ensures ParseStride(e + "/" + st, g) == Some(Stride(FirstOf(g, form), LastOf(g, form, true), n))
  {
    hide ParseValue, Find, Atoi;
    if form.Between? {
      var x, y :| SpellsRange(e, g, x, y, form.lo, form.hi);
      RangeIsCut(e, g, x, y, form.lo, form.hi);
    }
    CutAt(e, '/', st);
  }

  // What the forms set.

  /** A step that cannot wrap sets an arithmetic progression. */
  lemma StrideSpelled(t: Stride, v: nat)
    requires t.lo <= t.hi < 64 && 1 <= t.step <= MAX_INT - t.hi
    ensures v in StrideBits(t) <==> t.lo <= v <= t.hi && (v - t.lo) % t.step == 0
  {
    ProgressionMeans(t.lo, t.hi, t.step, v);
  }

  lemma PartSpelled(part: string, g: Range, t: Stride, v: nat)
    requires GoodRange(g) && ParseStride(part, g) == Some(t) && t.step <= MAX_INT - t.hi
    ensures PartBits(part, g).Some?
    ensures v in PartBits(part, g).value <==> t.lo <= v <= t.hi && (v - t.lo) % t.step == 0
  {
    hide ParseStride, StrideBits;
    StrideInRange(part, g);
    StrideSpelled(t, v);
  }

  lemma SpelledInRange(e: string, g: Range, form: Form)
    requires GoodRange(g) && Spells(e, g, form)
    ensures g.min <= FirstOf(g, form) && LastOf(g, form, false) <= g.max && LastOf(g, form, true) <= g.max
  {
    if form.Between? {
      var x, y :| SpellsRange(e, g, x, y, form.lo, form.hi);
    }
  }

  lemma FormSets(e: string, g: Range, form: Form, n: nat, v: nat)
    requires GoodRange(g) && Spells(e, g, form) && 1 <= n <= MAX_INT - g.max
    ensures var lo, hi, all := FirstOf(g, form), LastOf(g, form, false), LastOf(g, form, true); var part := e + "/" + Numeral(n);
      && PartBits(e, g).Some? && (v in PartBits(e, g).value <==> lo <= v <= hi)
      && PartBits(part, g).Some? && (v in PartBits(part, g).value <==> lo <= v <= all && (v - lo) % n == 0)
  {
    var lo, hi, all := FirstOf(g, form), LastOf(g, form, false), LastOf(g, form, true);
    hide ParseStride, Numeral, PartBits, Atoi, Spells, FirstOf, LastOf;
    NumeralReads(n);
    Alone(e, g, form);
    Stepped(e, g, form, Numeral(n), n);
    SpelledInRange(e, g, form);
    PartSpelled(e, g, Stride(lo, hi, 1), v);
    PartSpelled(e + "/" + Numeral(n), g, Stride(lo, all, n), v);
  }

  /** "*" sets the whole range, and with a step every n-th value from its beginning. */
  lemma StarSets(g: Range, n: nat, v: nat)
    requires GoodRange(g) && 1 <= n <= MAX_INT - g.max
    ensures PartBits("*", g).Some? && (v in PartBits("*", g).value <==> g.min <= v <= g.max)
    ensures var part := "*" + "/" + Numeral(n);
      PartBits(part, g).Some? && (v in PartBits(part, g).value <==> g.min <= v <= g.max && (v - g.min) % n == 0)
  {
    hide PartBits, Numeral;
    FormSets("*", g, Every, n, v);
  }

  /** A value sets itself, and with a step every n-th value from there to the end of the range. */
  lemma ValueSets(x: string, g: Range, a: nat, n: nat, v: nat)
    requires GoodRange(g) && ValueText(x, g, a) && 1 <= n <= MAX_INT - g.max
    ensures PartBits(x, g).Some? && (v in PartBits(x, g).value <==> v == a)
    ensures var part := x + "/" + Numeral(n);
      PartBits(part, g).Some? && (v in PartBits(part, g).value <==> a <= v <= g.max && (v - a) % n == 0)
  {
    hide PartBits, Numeral, ValueText;
    FormSets(x, g, From(a), n, v);
  }

  /** A range sets all its values, and with a step every n-th of them from its beginning. */
  lemma RangeSets(x: string, a: nat, y: string, b: nat, g: Range, n: nat, v: nat)
    requires GoodRange(g) && ValueText(x, g, a) && ValueText(y, g, b) && a <= b && 1 <= n <= MAX_INT - g.max
    ensures var part := x + "-" + y; PartBits(part, g).Some? && (v in PartBits(part, g).value <==> a <= v <= b)
    ensures var part := x + "-" + y + "/" + Numeral(n);
      PartBits(part, g).Some? && (v in PartBits(part, g).value <==> a <= v <= b && (v - a) % n == 0)
  {
    hide PartBits, Numeral, ValueText;
    assert SpellsRange(x + "-" + y, g, x, y, a, b);
    FormSets(x + "-" + y, g, Between(a, b), n, v);
  }

  // What is refused.

  lemma EmptyRefused(g: Range)
    requires GoodRange(g)
    ensures PartBits("", g).None?
  {
  }

  /** A step that is no number, zero or negative. */
  lemma StepRefused(e: string, st: string, g: Range)
    requires GoodRange(g) && '/' !in e && (Atoi(st).None? || Atoi(st).value <= 0)
    ensures PartBits(e + "/" + st, g).None?
  {
    hide ParseValue, Find, Atoi;
    CutAt(e, '/', st);
  }

  /** A range that descends, or has an end that is no value of the range, with or without a step. */
  lemma RangeRefused(x: string, y: string, g: Range, step: string)
    requires GoodRange(g) && '-' !in x && '/' !in x && '/' !in y && (step == "" || step[0] == '/')
    requires ParseValue(x, g).None? || ParseValue(y, g).None? || ParseValue(y, g).value < ParseValue(x, g).value
    ensures PartBits(x + "-" + y + step, g).None?
  {
    hide ParseValue, Find, Atoi;
    var e := x + "-" + y;
    CutAt(x, '-', y);
    assert e[|x|] == '-' && '/' !in e;
    if step == "" {
      NoCut(e, '/');
      assert e + step == e;
    } else {
      CutAt(e, '/', step[1..]);
      assert e + step == e + "/" + step[1..];
    }
  }

  /** A single text that is no value of the range, with or without a step. */
  lemma ValueRefused(x: string, g: Range, step: string)
    requires GoodRange(g) && x != "*" && '-' !in x && '/' !in x && (step == "" || step[0] == '/') && ParseValue(x, g).None?
    ensures PartBits(x + step, g).None?
  {
    hide ParseValue, Find, Atoi;
    if step == "" {
      NoCut(x, '/');
      assert x + step == x;
    } else {
      CutAt(x, '/', step[1..]);
      assert x + step == x + "/" + step[1..];
    }
  }

  // The five fields.

  lemma FieldLimit(v: nat, g: Range)
    requires GoodRange(g) && WordNames(g)
    ensures PartBits(Numeral(v), g).Some? <==> g.min <= v <= g.max
  {
    assert Numeral(v) !in g.names by {
      assert IsDigit(Numeral(v)[0]);
    }
    if g.min <= v <= g.max {
      NumeralPart(v, g);
    } else {
      hide Numeral, Find, Atoi;
      NumeralIsPlain(v);
      BigNumeral(v);
      ValueRefused(Numeral(v), g, "");
      assert Numeral(v) + "" == Numeral(v);
    }
  }

  lemma BigNumeral(v: nat)
    ensures Atoi(Numeral(v)) == if v <= MAX_INT then Some(v) else None
  {
    NumeralDecimal(v);
    assert IsDigit(Numeral(v)[0]);
  }

  /** The values of the five fields. */
  lemma FieldLimits(v: nat)
    ensures GoodRange(MINUTE) && (PartBits(Numeral(v), MINUTE).Some? <==> v <= 59)
    ensures GoodRange(HOUR) && (PartBits(Numeral(v), HOUR).Some? <==> v <= 23)
    ensures GoodRange(DAY_OF_MONTH) && (PartBits(Numeral(v), DAY_OF_MONTH).Some? <==> 1 <= v <= 31)
    ensures GoodRange(MONTH) && (PartBits(Numeral(v), MONTH).Some? <==> 1 <= v <= 12)
    ensures GoodRange(DAY_OF_WEEK) && (PartBits(Numeral(v), DAY_OF_WEEK).Some? <==> v <= 7)
  {
    hide PartBits, Numeral;
    GoodRanges();
    MonthNames();
    WeekdayNames();
    assert WordNames(MINUTE) && WordNames(HOUR) && WordNames(DAY_OF_MONTH);
    FieldLimit(v, MINUTE);
    FieldLimit(v, HOUR);
    FieldLimit(v, DAY_OF_MONTH);
    FieldLimit(v, MONTH);
    FieldLimit(v, DAY_OF_WEEK);
  }

  lemma NameStands(x: string, name: string, g: Range)
    requires name in g.names
    ensures ToLower(x) == name ==> ParseValue(x, g) == Some(g.names[name])
  {
  }

  lemma MonthNumbers()
    ensures MONTH.names.Keys == {"jan", "feb", "mar", "apr", "may", "jun", "jul", "aug", "sep", "oct", "nov", "dec"}
    ensures MONTH.names["jan"] == 1
    ensures MONTH.names["feb"] == 2
    ensures MONTH.names["mar"] == 3
    ensures MONTH.names["apr"] == 4
    ensures MONTH.names["may"] == 5
    ensures MONTH.names["jun"] == 6
    ensures MONTH.names["jul"] == 7
    ensures MONTH.names["aug"] == 8
    ensures MONTH.names["sep"] == 9
    ensures MONTH.names["oct"] == 10
    ensures MONTH.names["nov"] == 11
    ensures MONTH.names["dec"] == 12
  {
  }

  /** The names of months, in any case. */
  lemma MonthValues(x: string)
    ensures ToLower(x) == "jan" ==> ParseValue(x, MONTH) == Some(1)
    ensures ToLower(x) == "feb" ==> ParseValue(x, MONTH) == Some(2)
    ensures ToLower(x) == "mar" ==> ParseValue(x, MONTH) == Some(3)
    ensures ToLower(x) == "apr" ==> ParseValue(x, MONTH) == Some(4)
    ensures ToLower(x) == "may" ==> ParseValue(x, MONTH) == Some(5)
    ensures ToLower(x) == "jun" ==> ParseValue(x, MONTH) == Some(6)
    ensures ToLower(x) == "jul" ==> ParseValue(x, MONTH) == Some(7)
    ensures ToLower(x) == "aug" ==> ParseValue(x, MONTH) == Some(8)
    ensures ToLower(x) == "sep" ==> ParseValue(x, MONTH) == Some(9)
    ensures ToLower(x) == "oct" ==> ParseValue(x, MONTH) == Some(10)
    ensures ToLower(x) == "nov" ==> ParseValue(x, MONTH) == Some(11)
    ensures ToLower(x) == "dec" ==> ParseValue(x, MONTH) == Some(12)
  {
    hide ParseValue, ToLower;
    MonthNumbers();
    NameStands(x, "jan", MONTH);
    NameStands(x, "feb", MONTH);
    NameStands(x, "mar", MONTH);
    NameStands(x, "apr", MONTH);
    NameStands(x, "may", MONTH);
    NameStands(x, "jun", MONTH);
    NameStands(x, "jul", MONTH);
    NameStands(x, "aug", MONTH);
    NameStands(x, "sep", MONTH);
    NameStands(x, "oct", MONTH);
    NameStands(x, "nov", MONTH);
    NameStands(x, "dec", MONTH);
  }

  lemma WeekdayNumbers()
    ensures DAY_OF_WEEK.names.Keys == {"sun", "mon", "tue", "wed", "thu", "fri", "sat"}
    ensures DAY_OF_WEEK.names["sun"] == 0
    ensures DAY_OF_WEEK.names["mon"] == 1
    ensures DAY_OF_WEEK.names["tue"] == 2
    ensures DAY_OF_WEEK.names["wed"] == 3
    ensures DAY_OF_WEEK.names["thu"] == 4
    ensures DAY_OF_WEEK.names["fri"] == 5
    ensures DAY_OF_WEEK.names["sat"] == 6
  {
  }

  /** The names of weekdays, in any case. */
  lemma WeekdayValues(x: string)
    ensures ToLower(x) == "sun" ==> ParseValue(x, DAY_OF_WEEK) == Some(0)
    ensures ToLower(x) == "mon" ==> ParseValue(x, DAY_OF_WEEK) == Some(1)
    ensures ToLower(x) == "tue" ==> ParseValue(x, DAY_OF_WEEK) == Some(2)
    ensures ToLower(x) == "wed" ==> ParseValue(x, DAY_OF_WEEK) == Some(3)
    ensures ToLower(x) == "thu" ==> ParseValue(x, DAY_OF_WEEK) == Some(4)
    ensures ToLower(x) == "fri" ==> ParseValue(x, DAY_OF_WEEK) == Some(5)
    ensures ToLower(x) == "sat" ==> ParseValue(x, DAY_OF_WEEK) == Some(6)
  {
    hide ParseValue, ToLower;
    WeekdayNumbers();
    NameStands(x, "sun", DAY_OF_WEEK);
    NameStands(x, "mon", DAY_OF_WEEK);
    NameStands(x, "tue", DAY_OF_WEEK);
    NameStands(x, "wed", DAY_OF_WEEK);
    NameStands(x, "thu", DAY_OF_WEEK);
    NameStands(x, "fri", DAY_OF_WEEK);
    NameStands(x, "sat", DAY_OF_WEEK);
  }

  /** A name of the range is a value text, so that ranges and steps may use it. */
  lemma NameIsValue(x: string, g: Range)
    requires WordNames(g) && ToLower(x) in g.names && LetterNames(g)
    ensures ValueText(x, g, g.names[ToLower(x)])
  {
    var low := ToLower(x);
    assert IsWordOfLetters(low);
    forall k | 0 <= k < |x|
      ensures x[k] != '/' && x[k] != '-' && x[k] != '*'
    {
      assert low[k] == LowerChar(x[k]) && 'a' <= low[k] <= 'z';
    }
    assert |x| == |low| && x[0] != '*';
  }

  predicate IsWordOfLetters(w: string) {
    w != "" && forall k :: 0 <= k < |w| ==> 'a' <= w[k] <= 'z'
  }

  ghost predicate LetterNames(g: Range) {
    forall w :: w in g.names ==> IsWordOfLetters(w)
  }

  lemma MonthLetters()
    ensures LetterNames(MONTH)
  {
  }

  lemma WeekdayLetters()
    ensures LetterNames(DAY_OF_WEEK)
  {
  }

  /** Month and weekday names may stand wherever numbers may. */
  lemma FieldNames(x: string)
    ensures ToLower(x) in MONTH.names ==> ValueText(x, MONTH, MONTH.names[ToLower(x)])
    ensures ToLower(x) in DAY_OF_WEEK.names ==> ValueText(x, DAY_OF_WEEK, DAY_OF_WEEK.names[ToLower(x)])
  {
    hide ValueText, WordNames, LetterNames, ToLower;
    MonthNames();
    MonthLetters();
    WeekdayNames();
    WeekdayLetters();
    if ToLower(x) in MONTH.names {
      NameIsValue(x, MONTH);
    }
    if ToLower(x) in DAY_OF_WEEK.names {
      NameIsValue(x, DAY_OF_WEEK);
    }
  }

  // The aliases.

  /** What each alias stands for, in any case and with any space around it; any other text stands for itself. */
  lemma AliasMeans(spec: string)
    ensures var name := ToLower(TrimSpace(spec));
      && (name == "@hourly" ==> Words(spec) == ["0", "*", "*", "*", "*"])
      && (name == "@daily" || name == "@midnight" ==> Words(spec) == ["0", "0", "*", "*", "*"])
      && (name == "@weekly" ==> Words(spec) == ["0", "0", "*", "*", "0"])
      && (name == "@monthly" ==> Words(spec) == ["0", "0", "1", "*", "*"])
      && (name == "@yearly" || name == "@annually" ==> Words(spec) == ["0", "0", "1", "1", "*"])
      && (name !in {"@hourly", "@daily", "@midnight", "@weekly", "@monthly", "@yearly", "@annually"} ==>
            Words(spec) == Fields(spec))
  {
    hide Alias, Fields, ToLower, TrimSpace;
    AliasTexts(ToLower(TrimSpace(spec)));
    FiveFields("0", "*", "*", "*", "*", "0 * * * *");
    FiveFields("0", "0", "*", "*", "*", "0 0 * * *");
    FiveFields("0", "0", "*", "*", "0", "0 0 * * 0");
    FiveFields("0", "0", "1", "*", "*", "0 0 1 * *");
    FiveFields("0", "0", "1", "1", "*", "0 0 1 1 *");
  }

  lemma AliasTexts(name: string)
    ensures Alias("@hourly") == Some("0 * * * *") && Alias("@weekly") == Some("0 0 * * 0")
    ensures Alias("@daily") == Alias("@midnight") == Some("0 0 * * *")
    ensures Alias("@monthly") == Some("0 0 1 * *") && Alias("@yearly") == Alias("@annually") == Some("0 0 1 1 *")
    ensures Alias(name).Some? ==> name in {"@hourly", "@daily", "@midnight", "@weekly", "@monthly", "@yearly", "@annually"}
  {
  }

  lemma FiveFields(a: string, b: string, c: string, d: string, e: string, text: string)
    requires IsWord(a) && IsWord(b) && IsWord(c) && IsWord(d) && IsWord(e)
    requires text == a + " " + (b + " " + (c + " " + (d + " " + e)))
    ensures Fields(text) == [a, b, c, d, e]
  {
    hide Fields, IsWord;
    var words := [a, b, c, d, e];
    assert Joined([e]) == e;
    JoinedMore(d, [e]);
    JoinedMore(c, [d, e]);
    JoinedMore(b, [c, d, e]);
    JoinedMore(a, [b, c, d, e]);
    assert [d] + [e] == [d, e] && [c] + [d, e] == [c, d, e] && [b] + [c, d, e] == [b, c, d, e];
    assert [a] + [b, c, d, e] == words;
    FieldsOfJoined(words);
  }

  lemma JoinedMore(w: string, words: seq<string>)
    requires words != []
    ensures Joined([w] + words) == w + " " + Joined(words)
  {
    assert ([w] + words)[1..] == words;
  }
}
