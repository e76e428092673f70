/** renderTemplate: the scan for {Name} placeholders, against the parts a template is made of. */
module Slog {
  import opened Common
  import opened Strings

  /** A template is text and named placeholders; "{}" and an unclosed "{" are text. */
  datatype Part = Text(text: string) | Hole(name: string)

  function Written(p: Part): string {
    match p
    case Text(text) => text
    case Hole(name) => "{" + name + "}"
  }

  function Template(parts: seq<Part>): string {
    if parts == [] then "" else Written(parts[0]) + Template(parts[1..])
  }

  /** Where the next braces open and close. */
  datatype Braces = Braces(open: nat, close: nat)

  /** The first "{" and the first "}" after it, if both are there. */
  function NextBraces(s: string): (b: Option<Braces>)
    ensures b.Some? ==> b.value.open < b.value.close < |s| && s[b.value.open] == '{' && s[b.value.close] == '}'
  {
    var open := Find(s, '{');
    if open < 0 then None
    else
      var close := Find(s[open..], '}');
      if close < 0 then None
      else
        assert s[open..][close] == s[open + close];
        Some(Braces(open, open + close))
  }

  /** The parts of a template, read from the left. */
  function Parts(template: string): seq<Part>
    decreases |template|
  {
    var b := NextBraces(template);
    if b.None? then [Text(template)]
    else Head(template, b.value) + Parts(template[b.value.close + 1..])
  }

  function Head(s: string, b: Braces): seq<Part>
    requires b.open < b.close < |s|
  {
    if b.close == b.open + 1 then [Text(s[..b.close + 1])]
    else [Text(s[..b.open]), Hole(s[b.open + 1..b.close])]
  }

  /** Each placeholder in turn gives way to an argument, as long as there are arguments. */
  function Fill<T>(parts: seq<Part>, args: seq<T>, show: T -> string): string {
    if parts == [] then ""
    else if parts[0].Text? || args == [] then Written(parts[0]) + Fill(parts[1..], args, show)
    else show(args[0]) + Fill(parts[1..], args[1..], show)
  }

  function Names(parts: seq<Part>): seq<string> {
    if parts == [] then []
    else (if parts[0].Hole? then [parts[0].name] else []) + Names(parts[1..])
  }

  datatype Attr<T> = Attr(name: string, value: T)

  function Pairs<T>(names: seq<string>, args: seq<T>): seq<Attr<T>> {
    if names == [] || args == [] then [] else [Attr(names[0], args[0])] + Pairs(names[1..], args[1..])
  }

  // What the parts are.

  lemma Regroup<T>(a: seq<T>, b: seq<T>, c: seq<T>)
    ensures (a + b) + c == a + (b + c)
  {
  }

  lemma TemplateCons(p: seq<Part>, q: seq<Part>)
    requires p != []
    ensures Template(p + q) == Written(p[0]) + Template(p[1..] + q)
  {
    assert (p + q)[0] == p[0] && (p + q)[1..] == p[1..] + q;
  }

  lemma {:induction false} TemplateAppend(p: seq<Part>, q: seq<Part>)
    ensures Template(p + q) == Template(p) + Template(q)
  {
    if p == [] {
      assert p + q == q;
    } else {
      TemplateAppend(p[1..], q);
      TemplateCons(p, q);
      Regroup(Written(p[0]), Template(p[1..]), Template(q));
    }
  }

  lemma HeadIsPrefix(s: string, b: Braces)
    requires b.open < b.close < |s| && s[b.open] == '{' && s[b.close] == '}'
    ensures Template(Head(s, b)) == s[..b.close + 1]
  {
    var head := Head(s, b);
    if b.close == b.open + 1 {
      assert head[1..] == [] && Template(head) == Written(head[0]) + "";
    } else {
      assert head[1..] == [head[1]] && head[1..][1..] == [];
      assert Template(head[1..]) == Written(head[1]) + "";
      assert Written(head[1]) == s[b.open..b.close + 1];
    }
  }

  lemma PartsStep(s: string)
    requires NextBraces(s).Some?
    ensures Parts(s) == Head(s, NextBraces(s).value) + Parts(s[NextBraces(s).value.close + 1..])
  {
  }

  lemma PartsEnd(s: string)
    requires NextBraces(s).None?
    ensures Parts(s) == [Text(s)] && Template(Parts(s)) == s && Names(Parts(s)) == []
  {
    assert Parts(s)[1..] == [] && Template([]) == "" && Names([]) == [];
  }

  /** Reading a template and writing its parts gives the template. */
  lemma {:induction false} NothingLost(template: string)
    ensures Template(Parts(template)) == template
    decreases |template|
  {
    var b := NextBraces(template);
    if b.None? {
      PartsEnd(template);
    } else {
      var rest := template[b.value.close + 1..];
      NothingLost(rest);
      PartsStep(template);
      HeadIsPrefix(template, b.value);
      TemplateAppend(Head(template, b.value), Parts(rest));
      assert template == template[..b.value.close + 1] + rest;
    }
  }

  // One step of the scan.

  lemma TextFirst<T>(text: string, rest: seq<Part>, args: seq<T>, show: T -> string)
    ensures Fill([Text(text)] + rest, args, show) == text + Fill(rest, args, show)
    ensures Names([Text(text)] + rest) == Names(rest)
  {
    assert ([Text(text)] + rest)[1..] == rest;
  }

  lemma HoleFirst<T>(name: string, rest: seq<Part>, args: seq<T>, show: T -> string)
    ensures args == [] ==> Fill([Hole(name)] + rest, args, show) == Written(Hole(name)) + Fill(rest, args, show)
    ensures args != [] ==> Fill([Hole(name)] + rest, args, show) == show(args[0]) + Fill(rest, args[1..], show)
    ensures Names([Hole(name)] + rest) == [name] + Names(rest)
  {
    assert ([Hole(name)] + rest)[1..] == rest;
  }

  /** What a pair of braces adds to the message, and which arguments are left. */
  function Step<T>(s: string, b: Braces, args: seq<T>, show: T -> string): (string, seq<T>)
    requires b.open < b.close < |s|
  {
    if b.close == b.open + 1 || args == [] then (s[..b.close + 1], args)
    else (s[..b.open] + show(args[0]), args[1..])
  }

  lemma HeadFirst<T>(s: string, b: Braces, rest: seq<Part>, args: seq<T>, show: T -> string)
    requires b.open < b.close < |s| && s[b.open] == '{' && s[b.close] == '}'
    ensures Fill(Head(s, b) + rest, args, show)
         == Step(s, b, args, show).0 + Fill(rest, Step(s, b, args, show).1, show)
    ensures Names(Head(s, b) + rest) == (if b.close == b.open + 1 then [] else [s[b.open + 1..b.close]]) + Names(rest)
  {
    if b.close == b.open + 1 {
      TextFirst(s[..b.close + 1], rest, args, show);
    } else {
      var name := s[b.open + 1..b.close];
      assert Head(s, b) + rest == [Text(s[..b.open])] + ([Hole(name)] + rest);
      TextFirst(s[..b.open], [Hole(name)] + rest, args, show);
      HoleFirst(name, rest, args, show);
      if args == [] {
        assert s[..b.close + 1] == s[..b.open] + Written(Hole(name));
        Regroup(s[..b.open], Written(Hole(name)), Fill(rest, args, show));
      } else {
        Regroup(s[..b.open], show(args[0]), Fill(rest, args[1..], show));
      }
    }
  }

  lemma EndFill<T>(s: string, args: seq<T>, show: T -> string)
    requires NextBraces(s).None?
    ensures Fill(Parts(s), args, show) == s && Names(Parts(s)) == []
  {
    PartsEnd(s);
    TextFirst(s, [], args, show);
    assert [Text(s)] + [] == [Text(s)] && Fill([], args, show) == "";
  }

  lemma StepFill<T>(s: string, args: seq<T>, show: T -> string)
    requires NextBraces(s).Some?
    ensures var b := NextBraces(s).value; var (added, left) := Step(s, b, args, show);
      Fill(Parts(s), args, show) == added + Fill(Parts(s[b.close + 1..]), left, show)
  {
    hide *;
    var b := NextBraces(s).value;
    PartsStep(s);
    HeadFirst(s, b, Parts(s[b.close + 1..]), args, show);
  }

  /** The attribute that a pair of braces adds. */
  function Added<T>(s: string, b: Braces, args: seq<T>): seq<Attr<T>>
    requires b.open < b.close < |s|
  {
    if b.close == b.open + 1 || args == [] then [] else [Attr(s[b.open + 1..b.close], args[0])]
  }

  lemma PairsFirst<T>(name: string, names: seq<string>, args: seq<T>)
    requires args != []
    ensures Pairs([name] + names, args) == [Attr(name, args[0])] + Pairs(names, args[1..])
  {
    assert ([name] + names)[1..] == names;
  }

  lemma StepPairs<T>(s: string, args: seq<T>, show: T -> string)
    requires NextBraces(s).Some?
    ensures var b := NextBraces(s).value;
      Pairs(Names(Parts(s)), args)
        == Added(s, b, args) + Pairs(Names(Parts(s[b.close + 1..])), Step(s, b, args, show).1)
  {
    hide *;
    var b := NextBraces(s).value;
    PartsStep(s);
    HeadFirst(s, b, Parts(s[b.close + 1..]), args, show);
    HeadPairs(s, b, Names(Parts(s[b.close + 1..])), args, show);
  }

  lemma HeadPairs<T>(s: string, b: Braces, names: seq<string>, args: seq<T>, show: T -> string)
    requires b.open < b.close < |s|
    ensures Pairs((if b.close == b.open + 1 then [] else [s[b.open + 1..b.close]]) + names, args)
         == Added(s, b, args) + Pairs(names, Step(s, b, args, show).1)
  {
    if b.close == b.open + 1 {
      assert [] + names == names;
    } else if args != [] {
      PairsFirst(s[b.open + 1..b.close], names, args);
    }
  }

  /** The message fills the placeholders in order, and each filled placeholder becomes an attribute. */
  method RenderTemplate<T>(template: string, args: seq<T>, show: T -> string) returns (msg: string, attrs: seq<Attr<T>>)
    ensures msg == Fill(Parts(template), args, show)
    ensures attrs == Pairs(Names(Parts(template)), args)
  {
    hide Parts, Fill, Names, NextBraces;
    if '{' !in template {
      EndFill(template, args, show);
      return template, [];
    }
    var rest, next := template, 0;
    msg, attrs := "", [];
    while true
      invariant next <= |args|
      invariant msg + Fill(Parts(rest), args[next..], show) == Fill(Parts(template), args, show)
      invariant attrs + Pairs(Names(Parts(rest)), args[next..]) == Pairs(Names(Parts(template)), args)
      decreases |rest|
    {
      var b := NextBraces(rest);
      if b.None? {
        EndFill(rest, args[next..], show);
        msg := msg + rest;
        break;
      }
      var Braces(open, close) := b.value;
      ghost var (added, left) := Step(rest, b.value, args[next..], show);
      StepFill(rest, args[next..], show);
      StepPairs(rest, args[next..], show);
      Regroup(msg, added, Fill(Parts(rest[close + 1..]), left, show));
      Regroup(attrs, Added(rest, b.value, args[next..]), Pairs(Names(Parts(rest[close + 1..])), left));
      var name := rest[open + 1..close];
      if name == "" || next >= |args| {
        msg := msg + rest[..close + 1];
      } else {
        Regroup(msg, rest[..open], show(args[next]));
        msg := msg + rest[..open];
        msg := msg + show(args[next]);
        attrs := attrs + [Attr(name, args[next])];
        next := next + 1;
      }
      rest := rest[close + 1..];
    }
  }

  // What the logger promises about a template.

  /** As many attributes as there are both placeholders and arguments, matched in order. */
  lemma {:induction false} PairsInOrder<T>(names: seq<string>, args: seq<T>)
    ensures |Pairs(names, args)| == if |names| < |args| then |names| else |args|
    ensures forall k :: 0 <= k < |Pairs(names, args)| ==> Pairs(names, args)[k] == Attr(names[k], args[k])
  {
    if names == [] || args == [] {
      assert Pairs(names, args) == [];
    } else {
      PairsInOrder(names[1..], args[1..]);
      var rest := Pairs(names[1..], args[1..]);
      forall k | 0 <= k < |Pairs(names, args)|
        ensures Pairs(names, args)[k] == Attr(names[k], args[k])
      {
        if 0 < k {
          assert rest[k - 1] == Attr(names[1..][k - 1], args[1..][k - 1]);
        }
      }
    }
  }

  /** Each argument prints as the placeholder it fills, braces included. No arguments always echo. */
  predicate Echoes<T>(names: seq<string>, args: seq<T>, show: T -> string) {
    forall k :: 0 <= k < |names| && k < |args| ==> show(args[k]) == Written(Hole(names[k]))
  }

  lemma {:induction false} EchoFill<T>(parts: seq<Part>, args: seq<T>, show: T -> string)
    requires Echoes(Names(parts), args, show)
    ensures Fill(parts, args, show) == Template(parts)
  {
    if parts == [] {
      assert Template(parts) == "";
    } else if parts[0].Text? || args == [] {
      assert parts[0].Text? ==> Names(parts) == [] + Names(parts[1..]);
      assert Echoes(Names(parts[1..]), args, show);
      EchoFill(parts[1..], args, show);
    } else {
      assert Names(parts)[0] == parts[0].name && Names(parts)[1..] == Names(parts[1..]);
      EchoTail(Names(parts), args, show);
      EchoFill(parts[1..], args[1..], show);
    }
  }

  lemma EchoTail<T>(names: seq<string>, args: seq<T>, show: T -> string)
    requires names != [] && args != [] && Echoes(names, args, show)
    ensures show(args[0]) == Written(Hole(names[0])) && Echoes(names[1..], args[1..], show)
  {
    forall k | 0 <= k < |names[1..]| && k < |args[1..]|
      ensures show(args[1..][k]) == Written(Hole(names[1..][k]))
    {
      assert show(args[k + 1]) == Written(Hole(names[k + 1]));
    }
  }

  /** A template comes out unchanged without arguments, and when every argument prints as its own placeholder. */
  lemma Unchanged<T>(template: string, args: seq<T>, show: T -> string)
    requires Echoes(Names(Parts(template)), args, show)
    ensures Fill(Parts(template), args, show) == template
  {
    EchoFill(Parts(template), args, show);
    NothingLost(template);
  }

  /** Text that opens no brace, or an empty pair of them, and names that can be written between braces. */
  predicate Plain(p: Part) {
    match p
    case Text(text) => '{' !in text || text == "{}"
    case Hole(name) => name != "" && '}' !in name
  }

  ghost predicate AllPlain(parts: seq<Part>) {
    parts == [] || (Plain(parts[0]) && AllPlain(parts[1..]))
  }

  lemma TextBraces(text: string, rest: string)
    requires '{' !in text
    ensures match NextBraces(rest)
      case None => NextBraces(text + rest) == None
      case Some(b) => NextBraces(text + rest) == Some(Braces(|text| + b.open, |text| + b.close))
  {
    hide Find;
    FindAfter(text, rest, '{');
    var open := Find(rest, '{');
    if 0 <= open {
      assert (text + rest)[|text| + open..] == rest[open..];
    }
  }

  lemma TextRead<T>(text: string, rest: string, args: seq<T>, show: T -> string)
    requires '{' !in text
    ensures Fill(Parts(text + rest), args, show) == text + Fill(Parts(rest), args, show)
    ensures Names(Parts(text + rest)) == Names(Parts(rest))
  {
    hide *;
    TextBraces(text, rest);
    var all := text + rest;
    if NextBraces(rest).None? {
      EndFill(rest, args, show);
      EndFill(all, args, show);
    } else {
      var b := NextBraces(rest).value;
      var c := NextBraces(all).value;
      assert all[c.close + 1..] == rest[b.close + 1..];
      PartsStep(rest);
      PartsStep(all);
      ShiftedHead(text, rest, b, c, Parts(rest[b.close + 1..]), args, show);
    }
  }

  lemma ShiftedHead<T>(text: string, rest: string, b: Braces, c: Braces, tail: seq<Part>, args: seq<T>,
                       show: T -> string)
    requires b.open < b.close < |rest| && rest[b.open] == '{' && rest[b.close] == '}'
    requires c == Braces(|text| + b.open, |text| + b.close)
    ensures Fill(Head(text + rest, c) + tail, args, show) == text + Fill(Head(rest, b) + tail, args, show)
    ensures Names(Head(text + rest, c) + tail) == Names(Head(rest, b) + tail)
  {
    hide Fill, Names, Head;
    var all := text + rest;
    HeadFirst(rest, b, tail, args, show);
    HeadFirst(all, c, tail, args, show);
    assert all[c.open + 1..c.close] == rest[b.open + 1..b.close];
    assert all[..c.open] == text + rest[..b.open];
    assert all[..c.close + 1] == text + rest[..b.close + 1];
    var (added, left) := Step(rest, b, args, show);
    assert Step(all, c, args, show).1 == left;
    assert Step(all, c, args, show).0 == text + added;
    Regroup(text, added, Fill(tail, left, show));
  }

  lemma HoleBraces(name: string, rest: string)
    requires name != "" && '}' !in name
    ensures NextBraces(Written(Hole(name)) + rest) == Some(Braces(0, |name| + 1))
  {
    var all := Written(Hole(name)) + rest;
    assert all == ("{" + name) + ("}" + rest);
    FindAfter("{" + name, "}" + rest, '}');
    assert all[0..] == all && Find(all, '{') == 0 && Find(all, '}') == |name| + 1;
  }

  lemma HoleHead(name: string, rest: string)
    requires name != ""
    ensures var all := Written(Hole(name)) + rest; var b := Braces(0, |name| + 1);
      && b.close < |all|
      && Head(all, b) == [Text("")] + [Hole(name)]
      && all[b.close + 1..] == rest
  {
    var all := Written(Hole(name)) + rest;
    assert all[1..|name| + 1] == name;
  }

  lemma HoleRead<T>(name: string, rest: string, args: seq<T>, show: T -> string)
    requires name != "" && '}' !in name
    ensures Fill(Parts(Written(Hole(name)) + rest), args, show) == Fill([Hole(name)] + Parts(rest), args, show)
    ensures Names(Parts(Written(Hole(name)) + rest)) == [name] + Names(Parts(rest))
  {
    hide *;
    var all := Written(Hole(name)) + rest;
    HoleBraces(name, rest);
    HoleHead(name, rest);
    PartsStep(all);
    assert [Text("")] + [Hole(name)] + Parts(rest) == [Text("")] + ([Hole(name)] + Parts(rest));
    TextFirst("", [Hole(name)] + Parts(rest), args, show);
    HoleFirst(name, Parts(rest), args, show);
  }

  lemma EmptyBraces(rest: string)
    ensures NextBraces("{}" + rest) == Some(Braces(0, 1))
  {
    var all := "{}" + rest;
    assert all[0..] == all && all == "{" + ("}" + rest);
    FindAfter("{", "}" + rest, '}');
    assert Find(all, '{') == 0 && Find(all, '}') == 1;
  }

  lemma EmptyRead<T>(rest: string, args: seq<T>, show: T -> string)
    ensures Fill(Parts("{}" + rest), args, show) == "{}" + Fill(Parts(rest), args, show)
    ensures Names(Parts("{}" + rest)) == Names(Parts(rest))
  {
    var all := "{}" + rest;
    EmptyBraces(rest);
    assert all[..2] == "{}" && all[2..] == rest;
    assert Head(all, Braces(0, 1)) == [Text("{}")];
    hide *;
    PartsStep(all);
    TextFirst("{}", Parts(rest), args, show);
  }

  lemma Unclosed(tail: string)
    requires '}' !in tail
    ensures NextBraces(tail).None?
  {
  }

  /** Reading back: what is written from plain parts and a tail that closes no brace is filled part by part, under
      the parts' own placeholder names, and the tail is left as it is. */
  lemma {:induction false} WrittenIsRead<T>(parts: seq<Part>, tail: string, args: seq<T>, show: T -> string)
    requires AllPlain(parts) && '}' !in tail
    ensures Fill(Parts(Template(parts) + tail), args, show) == Fill(parts, args, show) + tail
    ensures Names(Parts(Template(parts) + tail)) == Names(parts)
    decreases |parts|
  {
    if parts == [] {
      assert Template(parts) + tail == tail && Fill(parts, args, show) + tail == tail;
      Unclosed(tail);
      EndFill(tail, args, show);
    } else {
      var first, rest := parts[0], parts[1..];
      assert parts == [first] + rest;
      var left := if first.Hole? && args != [] then args[1..] else args;
      WrittenIsRead(rest, tail, left, show);
      TemplateHead(parts, tail);
      hide Fill, Names, Template, Written;
      WrittenStep(first, rest, Template(rest) + tail, tail, args, left, show);
    }
  }

  lemma WrittenStep<T>(first: Part, rest: seq<Part>, text: string, tail: string, args: seq<T>, left: seq<T>,
                       show: T -> string)
    requires Plain(first) && left == if first.Hole? && args != [] then args[1..] else args
    requires Fill(Parts(text), left, show) == Fill(rest, left, show) + tail && Names(Parts(text)) == Names(rest)
    ensures Fill(Parts(Written(first) + text), args, show) == Fill([first] + rest, args, show) + tail
    ensures Names(Parts(Written(first) + text)) == Names([first] + rest)
  {
    hide Fill, Parts, Names;
    match first {
      case Text(words) =>
        if '{' !in words {
          TextRead(words, text, args, show);
        } else {
          EmptyRead(text, args, show);
        }
        TextFirst(words, rest, args, show);
        Regroup(words, Fill(rest, left, show), tail);
      case Hole(name) =>
        HoleRead(name, text, args, show);
        HoleFirst(name, Parts(text), args, show);
        HoleFirst(name, rest, args, show);
        if args == [] {
          Regroup(Written(first), Fill(rest, left, show), tail);
        } else {
          Regroup(show(args[0]), Fill(rest, left, show), tail);
        }
    }
  }

  /** Every template is written from plain parts and such a tail. */
  lemma {:induction false} EveryTemplate(template: string) returns (parts: seq<Part>, tail: string)
    ensures AllPlain(parts) && '}' !in tail && template == Template(parts) + tail
    decreases |template|
  {
    hide Find, Template, AllPlain, Written;
    var open := Find(template, '{');
    if open < 0 {
      parts, tail := [Text(template)], "";
      OnePart(template, "");
      assert template + "" == template;
    } else {
      var before, from := template[..open], template[open..];
      assert template == before + from && '{' !in before;
      var close := Find(from, '}');
      if close < 0 {
        parts, tail := [Text(before)], from;
        OnePart(before, from);
      } else {
        var more;
        more, tail := EveryTemplate(from[close + 1..]);
        var hole := Braced(from, close);
        parts := [Text(before), hole] + more;
        TwoParts(Text(before), hole, more);
        FourPieces(before, Written(hole), Template(more), tail);
        assert from == Written(hole) + (Template(more) + tail);
        assert Template(parts) == before + (Written(hole) + Template(more)) by {
          WrittenText(before);
        }
      }
    }
  }

  lemma OnePart(text: string, tail: string)
    requires '{' !in text
    ensures AllPlain([Text(text)]) && Template([Text(text)]) + tail == text + tail
  {
    assert [Text(text)][1..] == [] && Template([]) == "";
  }

  /** What stands between a brace and the first one that closes it. */
  lemma Braced(from: string, close: nat) returns (hole: Part)
    requires 0 < close < |from| && from[0] == '{' && from[close] == '}' && '}' !in from[..close]
    ensures Plain(hole) && from == Written(hole) + from[close + 1..]
  {
    var name := from[1..close];
    hole := if name == "" then Text("{}") else Hole(name);
    assert forall c :: c in name ==> c in from[..close];
    assert Written(hole) == "{" + name + "}";
  }

  lemma WrittenText(text: string)
    ensures Written(Text(text)) == text
  {
  }

  lemma FourPieces(a: string, b: string, c: string, d: string)
    ensures a + (b + (c + d)) == a + (b + c) + d
  {
  }

  lemma TemplateHead(parts: seq<Part>, tail: string)
    requires parts != []
    ensures Template(parts) + tail == Written(parts[0]) + (Template(parts[1..]) + tail)
  {
    Regroup(Written(parts[0]), Template(parts[1..]), tail);
  }

  lemma TwoParts(p: Part, q: Part, more: seq<Part>)
    ensures Template([p, q] + more) == Written(p) + (Written(q) + Template(more))
    ensures AllPlain([p, q] + more) <==> Plain(p) && Plain(q) && AllPlain(more)
  {
    var all := [p, q] + more;
    assert all[1..] == [q] + more && all[1..][1..] == more;
  }
}
