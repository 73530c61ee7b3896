/** The post-processing of profiling dumps (plotting/PlotSurf.py): each
    dump line "Tag;description;time" is routed into one of the lists of an
    event group, groups are compared list by list, every list receives a
    'Total' event, and the descriptions of all groups are merged into
    duplicate-free master lists.  Reading files, printing and plotting are
    not modelled; float() is a parameter. */
module PlotSurf {
  import opened Common

  // ---------------------------------------------------------------------
  // Events and groups
  // ---------------------------------------------------------------------

  datatype Kind = Kernel | IO | Compile | User

  function KindName(kind: Kind): string {
    match kind
    case Kernel => "Kernel"
    case IO => "IO"
    case Compile => "Compile"
    case User => "User"
  }

  datatype Event = Event(kind: string, desc: string, time: real)

  /** All the events and information lines of one dump file. */
  class EventGroup {
    var filename: Option<string>
    var infolist: seq<string>
    var kernelEvents: seq<Event>
    var ioEvents: seq<Event>
    var compileEvents: seq<Event>
    var userEvents: seq<Event>

    constructor()
      ensures filename == None && infolist == []
      ensures forall kind :: Events(kind) == []
    {
      filename := None;
      infolist := [];
      kernelEvents := [];
      ioEvents := [];
      compileEvents := [];
      userEvents := [];
    }

    /** The list holding events of one kind. */
    function Events(kind: Kind): seq<Event>
      reads this
    {
      match kind
      case Kernel => kernelEvents
      case IO => ioEvents
      case Compile => compileEvents
      case User => userEvents
    }

    method AddEvent(kind: Kind, e: Event)
      modifies this
      ensures Events(kind) == old(Events(kind)) + [e]
      ensures forall other :: other != kind ==> Events(other) == old(Events(other))
      ensures infolist == old(infolist) && filename == old(filename)
    {
      match kind
      case Kernel => kernelEvents := kernelEvents + [e];
      case IO => ioEvents := ioEvents + [e];
      case Compile => compileEvents := compileEvents + [e];
      case User => userEvents := userEvents + [e];
    }

    method AddInfo(desc: string)
      modifies this
      ensures infolist == old(infolist) + [desc]
      ensures forall kind :: Events(kind) == old(Events(kind))
      ensures filename == old(filename)
    {
      infolist := infolist + [desc];
    }

    /** compare: -1 when any of the four lists differ in length or hold
        events with different descriptions at the same position, and 0
        when all four agree; times are not compared. */
    method Compare(other: EventGroup) returns (r: int)
      ensures r == 0 <==> forall kind :: SameDescs(Events(kind), other.Events(kind))
      ensures r == 0 || r == -1
    {
      if |kernelEvents| != |other.kernelEvents| || |ioEvents| != |other.ioEvents|
         || |compileEvents| != |other.compileEvents| || |userEvents| != |other.userEvents| {
        r := -1;
        if |ioEvents| != |other.ioEvents| {
          assert !SameDescs(Events(IO), other.Events(IO));
        } else if |kernelEvents| != |other.kernelEvents| {
          assert !SameDescs(Events(Kernel), other.Events(Kernel));
        } else if |compileEvents| != |other.compileEvents| {
          assert !SameDescs(Events(Compile), other.Events(Compile));
        } else {
          assert !SameDescs(Events(User), other.Events(User));
        }
        return;
      }
      var same := DescsAgree(kernelEvents, other.kernelEvents);
      if !same {
        assert !SameDescs(Events(Kernel), other.Events(Kernel));
        return -1;
      }
      same := DescsAgree(ioEvents, other.ioEvents);
      if !same {
        assert !SameDescs(Events(IO), other.Events(IO));
        return -1;
      }
      same := DescsAgree(compileEvents, other.compileEvents);
      if !same {
        assert !SameDescs(Events(Compile), other.Events(Compile));
        return -1;
      }
      same := DescsAgree(userEvents, other.userEvents);
      if !same {
        assert !SameDescs(Events(User), other.Events(User));
        return -1;
      }
      r := 0;
    }
  }

  /** Two event lists of equal length whose descriptions agree position by
      position. */
  predicate SameDescs(a: seq<Event>, b: seq<Event>) {
    |a| == |b| && forall k :: 0 <= k < |a| ==> a[k].desc == b[k].desc
  }

  /** One of the description loops of compare, for lists of equal length. */
  method DescsAgree(a: seq<Event>, b: seq<Event>) returns (same: bool)
    requires |a| == |b|
    ensures same <==> SameDescs(a, b)
  {
    var index := 0;
    while index < |a|
      invariant 0 <= index <= |a|
      invariant forall k :: 0 <= k < index ==> a[k].desc == b[k].desc
    {
      if a[index].desc != b[index].desc {
        return false;
      }
      index := index + 1;
    }
    return true;
  }

  /** The agreement compare tests is an equivalence between groups. */
  lemma SameDescsEquivalence(a: seq<Event>, b: seq<Event>, c: seq<Event>)
    ensures SameDescs(a, a)
    ensures SameDescs(a, b) ==> SameDescs(b, a)
    ensures SameDescs(a, b) && SameDescs(b, c) ==> SameDescs(a, c)
  {
  }

  // ---------------------------------------------------------------------
  // Splitting a line
  // ---------------------------------------------------------------------

  /** The fields of `s` between the separators `c` (re.split on a single
      character); there is always at least one field. */
  function Split(s: string, c: char): (r: seq<string>)
    ensures |r| >= 1
  {
    if s == [] then [""]
    else
      var rest := Split(s[1..], c);
      if s[0] == c then [""] + rest else [[s[0]] + rest[0]] + rest[1..]
  }

  function Join(fields: seq<string>, c: char): string
    requires |fields| >= 1
  {
    if |fields| == 1 then fields[0] else fields[0] + [c] + Join(fields[1..], c)
  }

  /** Splitting loses nothing: joining the fields with the separator gives
      the line back, and no field contains the separator. */
  lemma {:induction false} SplitJoin(s: string, c: char)
    ensures Join(Split(s, c), c) == s
    ensures forall k :: 0 <= k < |Split(s, c)| ==> c !in Split(s, c)[k]
  {
    if s != [] {
      var rest := Split(s[1..], c);
      SplitJoin(s[1..], c);
      if s[0] == c {
        assert ([""] + rest)[1..] == rest;
      } else {
        var r := [[s[0]] + rest[0]] + rest[1..];
        assert r[1..] == rest[1..];
        if |rest| == 1 {
          assert Join(r, c) == [s[0]] + rest[0];
        } else {
          assert Join(rest, c) == rest[0] + [c] + Join(rest[1..], c);
        }
        assert s == [s[0]] + s[1..];
      }
    }
  }

  /** A field free of the separator, then the separator, splits off as the
      first field. */
  lemma {:induction false} SplitPrefix(a: string, c: char, b: string)
    requires c !in a
    ensures Split(a + [c] + b, c) == [a] + Split(b, c)
  {
    if a == [] {
      assert [c] + b == a + [c] + b;
      assert ([c] + b)[1..] == b;
    } else {
      SplitPrefix(a[1..], c, b);
      assert (a + [c] + b)[1..] == a[1..] + [c] + b;
      assert [a[0]] + a[1..] == a;
    }
  }

  /** A string free of the separator is a single field. */
  lemma {:induction false} SplitNone(a: string, c: char)
    requires c !in a
    ensures Split(a, c) == [a]
  {
    if a != [] {
      SplitNone(a[1..], c);
      assert [a[0]] + a[1..] == a;
    }
  }

  predicate IsSpace(ch: char) {
    ch == ' ' || ch == '\t' || ch == '\n' || ch == '\r' || ch == '\U{B}' || ch == '\U{C}'
  }

  /** str.strip(): the string without leading and trailing white space. */
  function Strip(s: string): (r: string)
    ensures |r| == 0 || (!IsSpace(r[0]) && !IsSpace(r[|r| - 1]))
  {
    StripRight(StripLeft(s))
  }

  function StripLeft(s: string): (r: string)
    ensures |r| == 0 || !IsSpace(r[0])
    ensures |r| <= |s| && r == s[|s| - |r|..]
  {
    if s != [] && IsSpace(s[0]) then StripLeft(s[1..]) else s
  }

  function StripRight(s: string): (r: string)
    ensures |r| == 0 || !IsSpace(r[|r| - 1])
    ensures |r| <= |s| && r == s[..|r|]
    ensures |s| > 0 && !IsSpace(s[0]) ==> |r| > 0 && r[0] == s[0]
  {
    if s != [] && IsSpace(s[|s| - 1]) then StripRight(s[..|s| - 1]) else s
  }

  // ---------------------------------------------------------------------
  // parse
  // ---------------------------------------------------------------------

  /** What one dump line becomes.  `Rejected` is an unknown tag, on which
      the script exits; `Malformed` is a line whose fields are missing or
      whose time is not a number, on which the script stops with an
      exception. */
  datatype Parsed = InfoLine(desc: string) | EventLine(kind: Kind, event: Event) | Rejected(tag: string) | Malformed

  function TagKind(tag: string): Option<Kind> {
    if tag == "Kernel" then Some(Kernel)
    else if tag == "IO" then Some(IO)
    else if tag == "Compile" then Some(Compile)
    else if tag == "User" then Some(User)
    else None
  }

  /** Routing of one line by the field before its first ';'. */
  function ParseLine(parseFloat: string -> Option<real>, line: string): Parsed {
    var tokens := Split(line, ';');
    if tokens[0] == "Info" then
      if |tokens| < 2 then Malformed else InfoLine(Strip(tokens[1]))
    else
      match TagKind(tokens[0])
      case None => Rejected(tokens[0])
      case Some(kind) =>
        if |tokens| < 3 then Malformed
        else
          match parseFloat(Strip(tokens[2]))
          case None => Malformed
          case Some(time) => EventLine(kind, Event(KindName(kind), Strip(tokens[1]), time))
  }

  predicate Accepted(p: Parsed) {
    p.InfoLine? || p.EventLine?
  }

  /** The information lines among the parsed lines, in order. */
  function InfoOf(ps: seq<Parsed>): seq<string> {
    if ps == [] then []
    else InfoOf(ps[..|ps| - 1]) + (if ps[|ps| - 1].InfoLine? then [ps[|ps| - 1].desc] else [])
  }

  /** The events of one kind among the parsed lines, in order. */
  function EventsOf(ps: seq<Parsed>, kind: Kind): seq<Event> {
    if ps == [] then []
    else
      var p := ps[|ps| - 1];
      EventsOf(ps[..|ps| - 1], kind) + (if p.EventLine? && p.kind == kind then [p.event] else [])
  }

  /** The lines, each parsed on its own. */
  function ParseAll(parseFloat: string -> Option<real>, lines: seq<string>): (r: seq<Parsed>)
    ensures |r| == |lines|
  {
    if lines == [] then []
    else ParseAll(parseFloat, lines[..|lines| - 1]) + [ParseLine(parseFloat, lines[|lines| - 1])]
  }

  /** Line k of the file is parsed as ParseLine would parse it alone. */
  lemma {:induction false} ParseAllAt(parseFloat: string -> Option<real>, lines: seq<string>, k: nat)
    requires k < |lines|
    ensures ParseAll(parseFloat, lines)[k] == ParseLine(parseFloat, lines[k])
  {
    if k < |lines| - 1 {
      ParseAllAt(parseFloat, lines[..|lines| - 1], k);
    }
  }

  /** No line is rejected or malformed. */
  predicate AllAccepted(ps: seq<Parsed>) {
    ps == [] || (AllAccepted(ps[..|ps| - 1]) && Accepted(ps[|ps| - 1]))
  }

  lemma {:induction false} AllAcceptedEach(ps: seq<Parsed>)
    ensures AllAccepted(ps) <==> forall k :: 0 <= k < |ps| ==> Accepted(ps[k])
  {
    if ps != [] {
      var init := ps[..|ps| - 1];
      AllAcceptedEach(init);
      assert forall k :: 0 <= k < |init| ==> init[k] == ps[k];
    }
  }

  /** Appends one accepted line to the list it belongs to. */
  method Route(eg: EventGroup, p: Parsed)
    requires Accepted(p)
    modifies eg
    ensures eg.infolist == old(eg.infolist) + (if p.InfoLine? then [p.desc] else [])
    ensures forall kind :: eg.Events(kind) == old(eg.Events(kind)) + (if p.EventLine? && p.kind == kind then [p.event] else [])
    ensures eg.filename == old(eg.filename)
  {
    if p.InfoLine? {
      eg.AddInfo(p.desc);
    } else {
      eg.AddEvent(p.kind, p.event);
    }
  }

  /** The body of parse's loop for line i: parse the line and, when it is
      accepted, route it. */
  method ParseStep(eg: EventGroup, parseFloat: string -> Option<real>, lines: seq<string>, i: nat)
    returns (accepted: bool)
    requires i < |lines|
    requires eg.infolist == InfoOf(ParseAll(parseFloat, lines[..i]))
    requires forall kind :: eg.Events(kind) == EventsOf(ParseAll(parseFloat, lines[..i]), kind)
    modifies eg
    ensures eg.filename == old(eg.filename)
    ensures !accepted ==> !AllAccepted(ParseAll(parseFloat, lines))
    ensures accepted ==> (AllAccepted(ParseAll(parseFloat, lines[..i])) ==> AllAccepted(ParseAll(parseFloat, lines[..i + 1])))
    ensures accepted ==> eg.infolist == InfoOf(ParseAll(parseFloat, lines[..i + 1]))
    ensures accepted ==> forall kind :: eg.Events(kind) == EventsOf(ParseAll(parseFloat, lines[..i + 1]), kind)
  {
    ghost var done := ParseAll(parseFloat, lines[..i]);
    var p := ParseLine(parseFloat, lines[i]);
    assert lines[..i + 1][..i] == lines[..i];
    assert ParseAll(parseFloat, lines[..i + 1]) == done + [p];
    assert (done + [p])[..|done|] == done;
    if !Accepted(p) {
      NotAllAccepted(parseFloat, lines, i);
      return false;
    }
    Route(eg, p);
    return true;
  }

  /** parse: every line goes to the information list or the event list of
      its tag, in file order; the first line that cannot be routed ends the
      script (`ok` false). */
  method Parse(filename: string, lines: seq<string>, parseFloat: string -> Option<real>)
    returns (eg: EventGroup, ok: bool)
    ensures fresh(eg) && eg.filename == Some(filename)
    ensures ok <==> AllAccepted(ParseAll(parseFloat, lines))
    ensures ok ==> eg.infolist == InfoOf(ParseAll(parseFloat, lines))
    ensures ok ==> forall kind :: eg.Events(kind) == EventsOf(ParseAll(parseFloat, lines), kind)
  {
    eg := new EventGroup();
    assert eg.kernelEvents == eg.ioEvents == eg.compileEvents == eg.userEvents == [] by {
      assert eg.Events(Kernel) == eg.Events(IO) == eg.Events(Compile) == eg.Events(User) == [];
    }
    eg.filename := Some(filename);
    var i := 0;
    while i < |lines|
      invariant 0 <= i <= |lines|
      invariant AllAccepted(ParseAll(parseFloat, lines[..i]))
      invariant eg.filename == Some(filename)
      invariant eg.infolist == InfoOf(ParseAll(parseFloat, lines[..i]))
      invariant forall kind :: eg.Events(kind) == EventsOf(ParseAll(parseFloat, lines[..i]), kind)
    {
      var accepted := ParseStep(eg, parseFloat, lines, i);
      if !accepted {
        return eg, false;
      }
      i := i + 1;
    }
    assert lines[..|lines|] == lines;
    ok := true;
  }

  /** One rejected or malformed line spoils the whole file. */
  lemma NotAllAccepted(parseFloat: string -> Option<real>, lines: seq<string>, i: nat)
    requires i < |lines| && !Accepted(ParseLine(parseFloat, lines[i]))
    ensures !AllAccepted(ParseAll(parseFloat, lines))
  {
    ParseAllAt(parseFloat, lines, i);
    AllAcceptedEach(ParseAll(parseFloat, lines));
  }

  /** Every accepted line lands in exactly one list. */
  lemma {:induction false} EveryLineRouted(ps: seq<Parsed>)
    requires forall k :: 0 <= k < |ps| ==> Accepted(ps[k])
    ensures |InfoOf(ps)| + |EventsOf(ps, Kernel)| + |EventsOf(ps, IO)|
            + |EventsOf(ps, Compile)| + |EventsOf(ps, User)| == |ps|
  {
    if ps != [] {
      EveryLineRouted(ps[..|ps| - 1]);
    }
  }

  /** The fields of a line as the profiler writes it,
      "Tag;description;time". */
  lemma {:induction false} SplitWrittenLine(tag: string, desc: string, text: string)
    requires ';' !in tag && ';' !in desc && ';' !in text
    ensures Split(tag + [';'] + desc + [';'] + text, ';') == [tag, desc, text]
  {
    SplitNone(text, ';');
    SplitPrefix(desc, ';', text);
    SplitPrefix(tag, ';', desc + [';'] + text);
    assert tag + [';'] + desc + [';'] + text == tag + [';'] + (desc + [';'] + text);
  }

  /** Such a line is routed to the list of its tag, with its description
      and its time. */
  lemma ParseWrittenLine(parseFloat: string -> Option<real>, kind: Kind, desc: string, text: string, time: real)
    requires ';' !in desc && ';' !in text
    requires Strip(desc) == desc && parseFloat(Strip(text)) == Some(time)
    ensures ParseLine(parseFloat, KindName(kind) + [';'] + desc + [';'] + text)
            == EventLine(kind, Event(KindName(kind), desc, time))
  {
    TagOfKind(kind);
    SplitWrittenLine(KindName(kind), desc, text);
  }

  /** Each kind's tag is recognised as that kind, and none is "Info". */
  lemma TagOfKind(kind: Kind)
    ensures ';' !in KindName(kind)
    ensures KindName(kind) != "Info" && TagKind(KindName(kind)) == Some(kind)
  {
    match kind
    case Kernel =>
    case IO =>
    case Compile =>
    case User => assert "User"[0] != "Info"[0];
  }

  // ---------------------------------------------------------------------
  // uniquify and searchForEvent
  // ---------------------------------------------------------------------

  /** The first occurrence of each element, in order. */
  function Unique<T(==)>(s: seq<T>): (r: seq<T>)
    ensures |r| <= |s|
  {
    if s == [] then []
    else
      var u := Unique(s[..|s| - 1]);
      if s[|s| - 1] in u then u else u + [s[|s| - 1]]
  }

  predicate NoDuplicates<T(==)>(s: seq<T>) {
    forall i, j :: 0 <= i < j < |s| ==> s[i] != s[j]
  }

  /** uniquify: the comprehension appends each element not yet in the
      output. */
  method Uniquify<T(==)>(s: seq<T>) returns (noDupes: seq<T>)
    ensures noDupes == Unique(s)
  {
    noDupes := [];
    var i := 0;
    while i < |s|
      invariant 0 <= i <= |s|
      invariant noDupes == Unique(s[..i])
    {
      assert s[..i + 1][..i] == s[..i];
      if s[i] !in noDupes {
        noDupes := noDupes + [s[i]];
      }
      i := i + 1;
    }
    assert s[..|s|] == s;
  }

  /** The output holds no element twice and exactly the input's elements. */
  lemma {:induction false} UniqueFacts<T>(s: seq<T>)
    ensures NoDuplicates(Unique(s))
    ensures forall x :: x in Unique(s) <==> x in s
  {
    if s != [] {
      var init := s[..|s| - 1];
      UniqueFacts(init);
      assert forall x :: x in s <==> x in init || x == s[|s| - 1];
    }
  }

  /** A list without duplicates is left as it is, so uniquify is
      idempotent. */
  lemma {:induction false} UniqueOfDistinct<T>(s: seq<T>)
    requires NoDuplicates(s)
    ensures Unique(s) == s
  {
    if s != [] {
      var init := s[..|s| - 1];
      UniqueOfDistinct(init);
      assert s[|s| - 1] !in init;
      assert init + [s[|s| - 1]] == s;
    }
  }

  lemma UniqueIdempotent<T>(s: seq<T>)
    ensures Unique(Unique(s)) == Unique(s)
  {
    UniqueFacts(s);
    UniqueOfDistinct(Unique(s));
  }

  /** searchForEvent: the first event with the description, or nothing (the
      script returns an empty list). */
  function SearchForEvent(desc: string, events: seq<Event>): (r: Option<Event>)
    ensures r.None? <==> forall k :: 0 <= k < |events| ==> events[k].desc != desc
    ensures r.Some? ==> exists k :: 0 <= k < |events| && events[k] == r.value && r.value.desc == desc
                                    && forall j :: 0 <= j < k ==> events[j].desc != desc
  {
    if events == [] then None
    else if events[0].desc == desc then Some(events[0])
    else
      var r := SearchForEvent(desc, events[1..]);
      if r.Some? then
        var k :| 0 <= k < |events| - 1 && events[1..][k] == r.value && r.value.desc == desc
                 && forall j :: 0 <= j < k ==> events[1..][j].desc != desc;
        assert events[k + 1] == r.value;
        r
      else r
  }

  // ---------------------------------------------------------------------
  // createMasterLists and roundUp
  // ---------------------------------------------------------------------

  /** The time of the 'Total' event: the events' times added in order. */
  function SumTimes(events: seq<Event>): real {
    if events == [] then 0.0 else SumTimes(events[..|events| - 1]) + events[|events| - 1].time
  }

  method Total(events: seq<Event>) returns (sum: real)
    ensures sum == SumTimes(events)
  {
    sum := 0.0;
    var i := 0;
    while i < |events|
      invariant 0 <= i <= |events|
      invariant sum == SumTimes(events[..i])
    {
      assert events[..i + 1][..i] == events[..i];
      sum := sum + events[i].time;
      i := i + 1;
    }
    assert events[..|events|] == events;
  }

  /** A 'Total' event's time is the sum of the times before it; with no
      negative time it bounds each of them. */
  lemma {:induction false} TotalBoundsEach(events: seq<Event>, k: nat)
    requires k < |events|
    requires forall j :: 0 <= j < |events| ==> events[j].time >= 0.0
    ensures SumTimes(events) >= events[k].time
  {
    var init := events[..|events| - 1];
    if k < |init| {
      TotalBoundsEach(init, k);
      assert init[k] == events[k];
    } else {
      TotalNonNegative(init);
    }
  }

  lemma {:induction false} TotalNonNegative(events: seq<Event>)
    requires forall j :: 0 <= j < |events| ==> events[j].time >= 0.0
    ensures SumTimes(events) >= 0.0
  {
    if events != [] {
      TotalNonNegative(events[..|events| - 1]);
    }
  }

  /** The event lists of one group get their 'Total' events. */
  method AddTotals(g: EventGroup)
    modifies g
    ensures forall kind :: g.Events(kind) == old(g.Events(kind)) + [Event(KindName(kind), "Total", SumTimes(old(g.Events(kind))))]
    ensures g.infolist == old(g.infolist) && g.filename == old(g.filename)
  {
    var sum := Total(g.kernelEvents);
    g.AddEvent(Kernel, Event("Kernel", "Total", sum));
    sum := Total(g.ioEvents);
    g.AddEvent(IO, Event("IO", "Total", sum));
    sum := Total(g.compileEvents);
    g.AddEvent(Compile, Event("Compile", "Total", sum));
    sum := Total(g.userEvents);
    g.AddEvent(User, Event("User", "Total", sum));
  }

  function Descs(events: seq<Event>): (r: seq<string>)
    ensures |r| == |events| && forall k :: 0 <= k < |events| ==> r[k] == events[k].desc
  {
    seq(|events|, k requires 0 <= k < |events| => events[k].desc)
  }

  /** The lists of one kind, group by group. */
  function ListsOf(groups: seq<EventGroup>, kind: Kind): (r: seq<seq<Event>>)
    reads set g | g in groups
    ensures |r| == |groups|
  {
    seq(|groups|, i requires 0 <= i < |groups| reads set g | g in groups => groups[i].Events(kind))
  }

  /** The descriptions of the lists, one list after the other. */
  function ConcatDescs(lists: seq<seq<Event>>): seq<string> {
    if lists == [] then [] else ConcatDescs(lists[..|lists| - 1]) + Descs(lists[|lists| - 1])
  }

  /** One description-collecting loop of createMasterLists, over the
      lists of one kind taken group by group. */
  method CollectDescs(lists: seq<seq<Event>>) returns (descs: seq<string>)
    ensures descs == ConcatDescs(lists)
  {
    descs := [];
    var i := 0;
    while i < |lists|
      invariant 0 <= i <= |lists|
      invariant descs == ConcatDescs(lists[..i])
    {
      assert lists[..i + 1][..i] == lists[..i];
      var events := lists[i];
      var j := 0;
      ghost var before := descs;
      while j < |events|
        invariant 0 <= j <= |events|
        invariant descs == before + Descs(events[..j])
      {
        assert Descs(events[..j + 1]) == Descs(events[..j]) + [events[j].desc];
        descs := descs + [events[j].desc];
        j := j + 1;
      }
      assert events[..|events|] == events;
      i := i + 1;
    }
    assert lists[..|lists|] == lists;
  }

  /** The first loop of createMasterLists: every list of every group gets
      one 'Total' event whose time is the sum of the times it already held.
      The groups are distinct objects. */
  method AddAllTotals(groups: seq<EventGroup>)
    requires forall i, j :: 0 <= i < j < |groups| ==> groups[i] != groups[j]
    modifies set g | g in groups
    ensures forall i, kind :: 0 <= i < |groups| ==>
              groups[i].Events(kind) == old(groups[i].Events(kind))
                + [Event(KindName(kind), "Total", SumTimes(old(groups[i].Events(kind))))]
    ensures forall i :: 0 <= i < |groups| ==>
              groups[i].infolist == old(groups[i].infolist) && groups[i].filename == old(groups[i].filename)
  {
    var i := 0;
    while i < |groups|
      invariant 0 <= i <= |groups|
      invariant forall k, kind :: 0 <= k < i ==>
                  groups[k].Events(kind) == old(groups[k].Events(kind))
                    + [Event(KindName(kind), "Total", SumTimes(old(groups[k].Events(kind))))]
      invariant forall k :: 0 <= k < |groups| ==>
                  groups[k].infolist == old(groups[k].infolist) && groups[k].filename == old(groups[k].filename)
      invariant forall k, kind :: i <= k < |groups| ==> groups[k].Events(kind) == old(groups[k].Events(kind))
    {
      AddTotals(groups[i]);
      i := i + 1;
    }
  }

  /** The second half of createMasterLists. */
  method MasterDescs(kernelLists: seq<seq<Event>>, userLists: seq<seq<Event>>,
                     ioLists: seq<seq<Event>>, compileLists: seq<seq<Event>>)
    returns (descGroup: seq<seq<string>>)
    ensures descGroup == [Unique(ConcatDescs(kernelLists)), Unique(ConcatDescs(userLists)),
                          Unique(ConcatDescs(ioLists)), Unique(ConcatDescs(compileLists))]
  {
    var kernelDescs := CollectDescs(kernelLists);
    var ioDescs := CollectDescs(ioLists);
    var compileDescs := CollectDescs(compileLists);
    var userDescs := CollectDescs(userLists);
    kernelDescs := Uniquify(kernelDescs);
    userDescs := Uniquify(userDescs);
    ioDescs := Uniquify(ioDescs);
    compileDescs := Uniquify(compileDescs);
    descGroup := [kernelDescs, userDescs, ioDescs, compileDescs];
  }

  /** createMasterLists: the totals, then the kernel, user, io and compile
      descriptions of all groups, each concatenated in group order and
      de-duplicated. */
  method CreateMasterLists(groups: seq<EventGroup>) returns (descGroup: seq<seq<string>>)
    requires forall i, j :: 0 <= i < j < |groups| ==> groups[i] != groups[j]
    modifies set g | g in groups
    ensures forall i, kind :: 0 <= i < |groups| ==>
              groups[i].Events(kind) == old(groups[i].Events(kind))
                + [Event(KindName(kind), "Total", SumTimes(old(groups[i].Events(kind))))]
    ensures forall i :: 0 <= i < |groups| ==>
              groups[i].infolist == old(groups[i].infolist) && groups[i].filename == old(groups[i].filename)
    ensures descGroup == [Unique(ConcatDescs(ListsOf(groups, Kernel))), Unique(ConcatDescs(ListsOf(groups, User))),
                          Unique(ConcatDescs(ListsOf(groups, IO))), Unique(ConcatDescs(ListsOf(groups, Compile)))]
  {
    AddAllTotals(groups);
    descGroup := MasterDescs(ListsOf(groups, Kernel), ListsOf(groups, User), ListsOf(groups, IO), ListsOf(groups, Compile));
  }

  /** Once the last group's list ends with its 'Total' event, 'Total' is
      in the master list, and the master list names nothing twice. */
  lemma TotalListed(lists: seq<seq<Event>>)
    requires |lists| > 0 && |lists[|lists| - 1]| > 0
    requires lists[|lists| - 1][|lists[|lists| - 1]| - 1].desc == "Total"
    ensures "Total" in Unique(ConcatDescs(lists))
    ensures NoDuplicates(Unique(ConcatDescs(lists)))
  {
    var last := lists[|lists| - 1];
    assert Descs(last)[|last| - 1] == "Total";
    assert "Total" in ConcatDescs(lists);
    UniqueFacts(ConcatDescs(lists));
  }

  /** roundUp for plot axes: the next multiple of 0.5 above the value, by
      truncating value / 0.5. */
  function RoundUp(value: real): real {
    (Trunc(value / 0.5) + 1) as real * 0.5
  }

  /** For non-negative values the result is a multiple of 0.5 strictly
      above the value and at most 0.5 above it. */
  lemma RoundUpAbove(value: real)
    requires value >= 0.0
    ensures (RoundUp(value) / 0.5).Floor as real == RoundUp(value) / 0.5
    ensures value < RoundUp(value) <= value + 0.5
  {
    var t := Trunc(value / 0.5);
    assert t as real <= value / 0.5 < t as real + 1.0;
  }
}
