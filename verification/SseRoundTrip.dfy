/** Exactly when decoding gives back what was encoded. */
module SseRoundTrip {
  import opened Sse

  // --- stripping -----------------------------------------------------------------------------------

  lemma {:induction false} LeftStripFacts(s: string)
    ensures |LeftStrip(s)| <= |s| && (OneLine(s) ==> OneLine(LeftStrip(s)))
    ensures LeftStrip(s) == "" || !IsSpace(LeftStrip(s)[0])
    ensures LeftStrip(s) == s[|s| - |LeftStrip(s)|..]
  {
    if s != "" && IsSpace(s[0]) {
      LeftStripFacts(s[1..]);
      assert OneLine(s) ==> OneLine(s[1..]);
    }
  }

  lemma {:induction false} RightStripFacts(s: string)
    ensures |RightStrip(s)| <= |s| && (OneLine(s) ==> OneLine(RightStrip(s)))
    ensures RightStrip(s) == "" || !IsSpace(RightStrip(s)[|RightStrip(s)| - 1])
    ensures RightStrip(s) == s[..|RightStrip(s)|]
  {
    if s != "" && IsSpace(s[|s| - 1]) {
      RightStripFacts(s[..|s| - 1]);
      assert OneLine(s) ==> OneLine(s[..|s| - 1]);
    }
  }

  /** Stripping trims, keeps a line a line, never lengthens, and leaves exactly the trimmed texts alone. */
  lemma StripFacts(s: string)
    ensures Trimmed(Strip(s)) && |Strip(s)| <= |s| && (OneLine(s) ==> OneLine(Strip(s)))
    ensures Strip(s) == s <==> Trimmed(s)
    ensures Strip(" " + s) == Strip(s)
  {
    LeftStripFacts(s);
    RightStripFacts(LeftStrip(s));
    assert (" " + s)[1..] == s && IsSpace((" " + s)[0]);
  }

  // --- lines -------------------------------------------------------------------------------------------

  lemma NoBreakBefore(s: string, k: nat, i: nat)
    requires i < k <= |s| && OneLine(s[..k])
    ensures !IsBreak(s[i])
  {
    assert s[..k][i] == s[i];
  }

  lemma FirstBreakUnique(s: string, k: nat)
    requires k <= |s| && OneLine(s[..k]) && (k < |s| ==> IsBreak(s[k]))
    ensures FirstBreak(s) == k
  {
    hide OneLine; hide IsBreak;
    var f := FirstBreak(s);
    if f < k { NoBreakBefore(s, k, f); }
    if k < f { NoBreakBefore(s, f, k); }
  }

  lemma {:induction false} BreakInside(s: string, i: nat)
    requires i < |s| && IsBreak(s[i])
    ensures FirstBreak(s) <= i
  {
    if !IsBreak(s[0]) { BreakInside(s[1..], i - 1); }
  }

  predicate Closed(s: string) { s == "" || s[|s| - 1] == '\n' }

  lemma SameFirstLine(a: string, b: string)
    requires a != "" && Closed(a)
    ensures FirstBreak(a + b) == FirstBreak(a) && AfterLine(a + b) == AfterLine(a)
  {
    var s, k := a + b, FirstBreak(a);
    BreakInside(a, |a| - 1);
    assert s[..k] == a[..k] && s[k] == a[k];
    hide OneLine;
    FirstBreakUnique(s, k);
    assert k + 1 < |a| ==> s[k + 1] == a[k + 1];
    hide FirstBreak; hide IsBreak;
  }

  /** Text that ends in a line feed can be split into lines on its own. */
  lemma {:induction false} LinesOfParts(a: string, b: string)
    requires Closed(a)
    ensures Lines(a + b) == Lines(a) + Lines(b)
    decreases |a|
  {
    hide OneLine; hide IsBreak; hide FirstBreak; hide AfterLine;
    if a == "" {
      assert a + b == b;
    } else {
      SameFirstLine(a, b);
      var s, k, n := a + b, FirstBreak(a), AfterLine(a);
      assert s[..k] == a[..k] && s[n..] == a[n..] + b;
      LinesOfParts(a[n..], b);
    }
  }

  lemma LineOf(l: string)
    requires OneLine(l)
    ensures Lines(l + "\n") == [l]
    ensures l != "" ==> Lines(l) == [l]
  {
    var s := l + "\n";
    assert s[..|l|] == l;
    FirstBreakUnique(s, |l|);
    assert s[AfterLine(s)..] == "";
    if l != "" {
      assert l[..|l|] == l;
      FirstBreakUnique(l, |l|);
    }
  }

  lemma {:induction false} LinesOfTerminated(ls: seq<string>)
    requires forall i :: 0 <= i < |ls| ==> OneLine(ls[i])
    ensures Lines(Terminated(ls)) == ls
    ensures Closed(Terminated(ls))
  {
    hide Lines; hide OneLine;
    if ls == [] {
      NoLines();
    } else {
      LineOf(ls[0]);
      LinesOfTerminated(ls[1..]);
      LinesOfParts(ls[0] + "\n", Terminated(ls[1..]));
    }
  }

  lemma NoLines()
    ensures Lines("") == []
  {
  }

  // --- events --------------------------------------------------------------------------------------------

  lemma {:induction false} EventsOfParts(a: seq<string>, b: seq<string>, kind: string)
    ensures Events(a + b, kind) == Events(a, kind) + Events(b, KindAfterAll(a, kind))
    ensures KindAfterAll(a + b, kind) == KindAfterAll(b, KindAfterAll(a, kind))
  {
    hide KindAfter; hide Delivered;
    if b == [] {
      assert a + b == a;
    } else {
      var n := |b| - 1;
      assert (a + b)[..|a| + n] == a + b[..n];
      EventsOfParts(a, b[..n], kind);
    }
  }

  /** A data field delivers its line, stripped, under the current type. */
  lemma DataField(l: string, kind: string)
    ensures Delivered("data: " + l, kind) == [Event(kind, Strip(l))] && KindAfter("data: " + l, kind) == kind
  {
    var line := "data: " + l;
    assert line[0] == 'd' && line[..5] == "data:" && line[5..] == " " + l;
    assert EVENT_FIELD[0] == 'e';
    PrefixStarts(line, EVENT_FIELD);
    StripFacts(l);
  }

  lemma PrefixStarts(line: string, p: string)
    requires p != ""
    ensures HasPrefix(line, p) ==> line[0] == p[0]
  {
    if HasPrefix(line, p) { assert line[..|p|][0] == line[0]; }
  }

  lemma EventField(l: string, kind: string)
    ensures Delivered("event: " + l, kind) == [] && KindAfter("event: " + l, kind) == Strip(l)
  {
    var line := "event: " + l;
    assert line[..6] == "event:" && line[6..] == " " + l;
    StripFacts(l);
  }

  /** One event per data line. */
  function PerLine(ls: seq<string>, kind: string): (es: seq<Event>)
    ensures |es| == |ls|
  {
    seq(|ls|, i requires 0 <= i < |ls| => Event(kind, Strip(ls[i])))
  }

  lemma LastField(ls: seq<string>, kind: string)
    requires ls != []
    ensures var n := |ls| - 1;
            && Fields(ls)[..n] == Fields(ls[..n]) && Fields(ls)[n] == "data: " + ls[n]
            && PerLine(ls, kind) == PerLine(ls[..n], kind) + [Event(kind, Strip(ls[n]))]
  {
    hide Strip;
  }

  lemma {:induction false} DataFields(ls: seq<string>, kind: string)
    ensures Events(Fields(ls), kind) == PerLine(ls, kind) && KindAfterAll(Fields(ls), kind) == kind
  {
    hide Fields; hide PerLine; hide Delivered; hide KindAfter; hide Strip;
    if ls != [] {
      var n := |ls| - 1;
      LastField(ls, kind);
      DataFields(ls[..n], kind);
      DataField(ls[n], kind);
    }
  }

  function Header(kind: string): string { Terminated(["event: " + kind]) }

  lemma HeaderEnds(kind: string)
    ensures Header(kind) == "event: " + kind + "\n" && Header(kind)[|Header(kind)| - 1] == '\n'
  {
    assert Terminated(["event: " + kind][1..]) == "";
  }

  lemma FieldsAreLines(data: string)
    ensures var fs := Fields(DataLines(data)); forall i :: 0 <= i < |fs| ==> OneLine(fs[i])
  {
    hide DataLines;
    assert OneLine("data: ");
    hide IsBreak;
  }

  lemma EncodedLines(e: Event)
    ensures Lines(Encoded(e)) == Lines(Header(e.kind)) + Fields(DataLines(e.data)) + [""]
    ensures Encoded(e)[|Encoded(e)| - 1] == '\n'
  {
    hide Lines; hide Fields; hide OneLine; hide DataLines;
    var h, fs := Header(e.kind), Fields(DataLines(e.data));
    var t := Terminated(fs);
    FieldsAreLines(e.data);
    LinesOfTerminated(fs);
    HeaderEnds(e.kind);
    LinesOfParts(h, t);
    assert (h + t)[|h + t| - 1] == '\n';
    LinesOfParts(h + t, "\n");
    EmptyLine();
  }

  lemma EmptyLine()
    ensures Lines("\n") == [""]
  {
    LineOf("");
    assert "" + "\n" == "\n";
  }

  /** What any event is decoded to: whatever its type line delivers, then one event per data line; after it the decoder
      is back in its initial state. */
  lemma DecodedEvent(e: Event, kind: string)
    ensures var h := Lines(Header(e.kind));
            Events(Lines(Encoded(e)), kind) == Events(h, kind) + PerLine(DataLines(e.data), KindAfterAll(h, kind))
    ensures KindAfterAll(Lines(Encoded(e)), kind) == ""
  {
    hide Lines; hide Fields; hide PerLine; hide DataLines; hide Encoded; hide Header;
    var h, fs := Lines(Header(e.kind)), Fields(DataLines(e.data));
    EncodedLines(e);
    DataFields(DataLines(e.data), KindAfterAll(h, kind));
    EventsOfParts(h, fs, kind);
    EventsOfParts(h + fs, [""], kind);
    BlankLine(KindAfterAll(h + fs, kind));
  }

  lemma BlankLine(kind: string)
    ensures Events([""], kind) == [] && KindAfterAll([""], kind) == ""
  {
    assert [""][..0] == [];
  }

  /** An event whose type is one line is decoded to one event per line of its data, all of that type, stripped. */
  lemma OneEventPerDataLine(e: Event)
    requires OneLine(e.kind)
    ensures Events(Lines(Encoded(e)), "") == PerLine(DataLines(e.data), Strip(e.kind))
  {
    hide Lines; hide PerLine; hide Strip; hide Events; hide KindAfterAll; hide DataLines; hide Encoded; hide Header;
    hide OneLine;
    DecodedEvent(e, "");
    OneHeader(e.kind);
  }

  lemma OneHeader(kind: string)
    requires OneLine(kind)
    ensures Events(Lines(Header(kind)), "") == [] && KindAfterAll(Lines(Header(kind)), "") == Strip(kind)
  {
    var line := "event: " + kind;
    assert OneLine(line);
    hide OneLine; hide Lines; hide Strip; hide Delivered; hide KindAfter;
    HeaderEnds(kind);
    LineOf(line);
    EventField(kind, "");
    assert [line][..0] == [];
    assert [line][0] == line;
    hide Header;
  }

  lemma {:induction false} KindsAreOneLine(ls: seq<string>, kind: string)
    requires OneLine(kind) && forall i :: 0 <= i < |ls| ==> OneLine(ls[i])
    ensures OneLine(KindAfterAll(ls, kind))
  {
    if ls != [] {
      var l := ls[|ls| - 1];
      KindsAreOneLine(ls[..|ls| - 1], kind);
      if HasPrefix(l, EVENT_FIELD) {
        StripFacts(l[|EVENT_FIELD|..]);
        assert OneLine(l[|EVENT_FIELD|..]);
      }
    }
  }

  // --- the round trip ------------------------------------------------------------------------------------------

  /** Type and data are single lines without surrounding white space. */
  predicate Plain(e: Event) { Trimmed(e.kind) && OneLine(e.kind) && Trimmed(e.data) && OneLine(e.data) }

  lemma PlainData(data: string)
    requires OneLine(data)
    ensures DataLines(data) == [data]
  {
    LineOf(data);
  }

  lemma PlainRoundTrip(e: Event)
    requires Plain(e)
    ensures Events(Lines(Encoded(e)), "") == [e]
  {
    hide Lines; hide DataLines; hide Encoded; hide Events; hide Strip; hide OneLine; hide Trimmed;
    OneEventPerDataLine(e);
    PlainData(e.data);
    StripFacts(e.kind);
    StripFacts(e.data);
  }

  lemma OnlyPlainRoundTrips(e: Event)
    requires Events(Lines(Encoded(e)), "") == [e]
    ensures Plain(e)
  {
    hide Lines; hide DataLines; hide Encoded; hide Events; hide Strip; hide OneLine; hide Trimmed; hide KindAfterAll;
    DecodedEvent(e, "");
    var h, ls := Lines(Header(e.kind)), DataLines(e.data);
    var kind := KindAfterAll(h, "");
    hide Header;
    OnlyOne(Events(h, ""), ls, kind, e);
    EmptyIsOneLine();
    KindsAreOneLine(h, "");
    OneEventPerDataLine(e);
    OnlyOne([], ls, Strip(e.kind), e);
    StripFacts(e.kind);
    StripFacts(ls[0]);
  }

  lemma OnlyOne(before: seq<Event>, ls: seq<string>, kind: string, e: Event)
    requires ls != [] && before + PerLine(ls, kind) == [e]
    ensures e == Event(kind, Strip(ls[0]))
  {
    hide Strip;
    assert |before| == 0 && (before + PerLine(ls, kind))[0] == PerLine(ls, kind)[0];
  }

  lemma EmptyIsOneLine()
    ensures OneLine("")
  {
  }

  /** Decoding what was encoded gives back exactly that event if and only if it is plain. */
  lemma RoundTripExactly(e: Event)
    ensures Events(Lines(Encoded(e)), "") == [e] <==> Plain(e)
  {
    hide Lines; hide Encoded; hide Events; hide Plain;
    if Plain(e) {
      PlainRoundTrip(e);
    }
    if Events(Lines(Encoded(e)), "") == [e] {
      OnlyPlainRoundTrips(e);
    }
  }

  lemma TerminatedFields(ls: seq<string>, n: nat)
    requires n <= |ls| && forall i :: 0 <= i < |ls| ==> OneLine(ls[i])
    ensures Terminated(Fields(ls)) == Terminated(Fields(ls[..n])) + Terminated(Fields(ls[n..]))
  {
    hide Terminated;
    assert Fields(ls) == Fields(ls[..n]) + Fields(ls[n..]);
    TerminatedParts(Fields(ls[..n]), Fields(ls[n..]));
  }

  /** The text sent for an event of one data line, and what one more line adds to it. */
  lemma EncodesLineByLine(kind: string, line: string, data: string)
    requires OneLine(line)
    ensures Encoded(Event(kind, line)) == "event: " + kind + "\ndata: " + line + "\n\n"
    ensures data != "" ==>
              Encoded(Event(kind, line + "\n" + data)) ==
              "event: " + kind + "\ndata: " + line + "\n" + Encoded(Event(kind, data))[|kind| + 8..]
  {
    hide Lines; hide OneLine;
    HeaderEnds(kind);
    LineOf(line);
    NoLines();
    OneField(line);
    assert DataLines(line) == [line];
    if data != "" {
      LinesOfParts(line + "\n", data);
      assert (line + "\n") + data == line + "\n" + data;
      var ls := DataLines(data);
      assert DataLines(line + "\n" + data) == [line] + ls;
      TerminatedFields([line] + ls, 1);
      assert ([line] + ls)[..1] == [line] && ([line] + ls)[1..] == ls;
      assert Encoded(Event(kind, data)) == ("event: " + kind + "\n") + (Terminated(Fields(ls)) + "\n");
    }
  }

  lemma OneField(line: string)
    ensures Terminated(Fields([line])) == "data: " + line + "\n"
  {
    assert Fields([line])[1..] == [];
  }

  /** What the decoder makes of an encoded stream. */
  function Received(es: seq<Event>): seq<Event> { Events(Lines(EncodedAll(es)), "") }

  /** Whatever one event is decoded to, it is at least one event. */
  lemma DeliversSomething(e: Event)
    ensures |Events(Lines(Encoded(e)), "")| >= 1
  {
    hide Lines; hide Encoded; hide Events;
    DecodedEvent(e, "");
  }

  lemma {:induction false} StreamEnds(es: seq<Event>)
    ensures Closed(EncodedAll(es))
  {
    if es != [] {
      EncodedLines(es[|es| - 1]);
    }
  }

  /** A stream is decoded event by event: no event changes how another is read. */
  lemma StreamDecodes(es: seq<Event>)
    requires es != []
    ensures var n := |es| - 1;
            Received(es) == Received(es[..n]) + Events(Lines(Encoded(es[n])), "")
  {
    hide Lines; hide Encoded; hide Events;
    var n := |es| - 1;
    StreamEnds(es[..n]);
    LinesOfParts(EncodedAll(es[..n]), Encoded(es[n]));
    EventsOfParts(Lines(EncodedAll(es[..n])), Lines(Encoded(es[n])), "");
    StreamResets(es[..n]);
  }

  lemma {:induction false} StreamResets(es: seq<Event>)
    ensures KindAfterAll(Lines(EncodedAll(es)), "") == ""
  {
    hide Lines; hide Encoded; hide Events;
    if es == [] {
      NoLines();
    } else {
      var n := |es| - 1;
      StreamEnds(es[..n]);
      LinesOfParts(EncodedAll(es[..n]), Encoded(es[n]));
      StreamResets(es[..n]);
      EventsOfParts(Lines(EncodedAll(es[..n])), Lines(Encoded(es[n])), "");
      DecodedEvent(es[n], "");
    }
  }

  lemma {:induction false} AtLeastAsMany(es: seq<Event>)
    ensures |Received(es)| >= |es|
  {
    hide Lines; hide Encoded; hide Events; hide Received;
    if es != [] {
      StreamDecodes(es);
      AtLeastAsMany(es[..|es| - 1]);
      DeliversSomething(es[|es| - 1]);
    }
  }

  /** Two parts, each with at least its share of events, make up `all + [last]` only part by part. */
  lemma PartByPart(front: seq<Event>, back: seq<Event>, all: seq<Event>, last: Event)
    requires |front| >= |all| && |back| >= 1
    ensures front + back == all + [last] <==> front == all && back == [last]
  {
    if front + back == all + [last] {
      assert |front| == |all|;
      assert (front + back)[..|front|] == front && (front + back)[|front|..] == back;
      assert (all + [last])[..|all|] == all;
    }
  }

  predicate AllPlain(es: seq<Event>) { forall i :: 0 <= i < |es| ==> Plain(es[i]) }

  /** Decoding the concatenated encodings of any events gives back exactly those events if and only if each of them is
      plain. */
  lemma {:induction false} StreamRoundTripsExactly(es: seq<Event>)
    ensures Received(es) == es <==> AllPlain(es)
  {
    hide Lines; hide Encoded; hide Plain; hide Events; hide Received; hide AllPlain;
    if es == [] {
      NothingReceived();
    } else {
      var n := |es| - 1;
      var front, e := es[..n], es[n];
      assert es == front + [e];
      OneMorePlain(front, e);
      StreamDecodes(es);
      StreamRoundTripsExactly(front);
      RoundTripExactly(e);
      AtLeastAsMany(front);
      DeliversSomething(e);
      PartByPart(Received(front), Events(Lines(Encoded(e)), ""), front, e);
    }
  }

  lemma NothingReceived()
    ensures Received([]) == [] && AllPlain([])
  {
    NoLines();
  }

  lemma OneMorePlain(es: seq<Event>, e: Event)
    ensures AllPlain(es + [e]) <==> AllPlain(es) && Plain(e)
  {
    hide Plain;
    assert (es + [e])[|es|] == e;
    assert forall i :: 0 <= i < |es| ==> (es + [e])[i] == es[i];
  }
}
