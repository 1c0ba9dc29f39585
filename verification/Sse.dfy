/** The server-sent-event encoder (`backend/app/application/monitoring_sse_stream.py`) and the line decoder of the
    benchmark observer (`scripts/benchmark_odis/observers.py`), after section 9.2 of the WHATWG HTML standard. */
module Sse {

  datatype Event = Event(kind: string, data: string)

  const EVENT_FIELD := "event:"
  const DATA_FIELD := "data:"

  // --- text -------------------------------------------------------------------------------------

  /** The characters at which Python's `splitlines` breaks a text. */
  predicate IsBreak(c: char) {
    var n := c as int;
    0x0a <= n <= 0x0d || 0x1c <= n <= 0x1e || n == 0x85 || n == 0x2028 || n == 0x2029
  }

  /** The characters Python's `strip` removes. */
  predicate IsSpace(c: char) {
    var n := c as int;
    IsBreak(c) || n == 0x09 || n == 0x1f || n == 0x20 || n == 0xa0 || n == 0x1680 || 0x2000 <= n <= 0x200a
    || n == 0x202f || n == 0x205f || n == 0x3000
  }

  predicate OneLine(s: string) { forall i :: 0 <= i < |s| ==> !IsBreak(s[i]) }

  function FirstBreak(s: string): (k: nat)
    ensures k <= |s| && OneLine(s[..k]) && (k < |s| ==> IsBreak(s[k]))
  {
    if s == "" || IsBreak(s[0]) then 0
    else
      var k := 1 + FirstBreak(s[1..]);
      assert s[..k] == [s[0]] + s[1..][..k - 1];
      k
  }

  /** Where the text after the first line starts; a carriage return and a line feed are one break. */
  function AfterLine(s: string): (n: nat)
    requires s != ""
    ensures 0 < n <= |s| && n >= FirstBreak(s)
  {
    var k := FirstBreak(s);
    if k == |s| then k else if k + 1 < |s| && s[k] == '\r' && s[k + 1] == '\n' then k + 2 else k + 1
  }

  /** `splitlines`. */
  function Lines(s: string): (ls: seq<string>)
    ensures forall i :: 0 <= i < |ls| ==> OneLine(ls[i])
    ensures |ls| == 0 <==> s == ""
    decreases |s|
  {
    if s == "" then [] else [s[..FirstBreak(s)]] + Lines(s[AfterLine(s)..])
  }

  function LeftStrip(s: string): string { if s != "" && IsSpace(s[0]) then LeftStrip(s[1..]) else s }

  function RightStrip(s: string): string { if s != "" && IsSpace(s[|s| - 1]) then RightStrip(s[..|s| - 1]) else s }

  function Strip(s: string): string { RightStrip(LeftStrip(s)) }

  predicate Trimmed(s: string) { s == "" || (!IsSpace(s[0]) && !IsSpace(s[|s| - 1])) }

  predicate HasPrefix(s: string, p: string) { |p| <= |s| && s[..|p|] == p }

  // --- the encoder ----------------------------------------------------------------------------------

  /** Lines, each with its line feed. */
  function Terminated(ls: seq<string>): string { if ls == [] then "" else ls[0] + "\n" + Terminated(ls[1..]) }

  function DataLines(data: string): (ls: seq<string>)
    ensures ls != [] && forall i :: 0 <= i < |ls| ==> OneLine(ls[i])
  {
    if Lines(data) == [] then [""] else Lines(data)
  }

  function Fields(ls: seq<string>): (fs: seq<string>)
    ensures |fs| == |ls|
  {
    seq(|ls|, i requires 0 <= i < |ls| => "data: " + ls[i])
  }

  /** One encoded event: its type, its data line by line, and an empty line. */
  function Encoded(e: Event): string {
    Terminated(["event: " + e.kind]) + Terminated(Fields(DataLines(e.data))) + "\n"
  }

  lemma {:induction false} TerminatedParts(a: seq<string>, b: seq<string>)
    ensures Terminated(a + b) == Terminated(a) + Terminated(b)
  {
    if a == [] {
      assert a + b == b;
    } else {
      assert (a + b)[1..] == a[1..] + b;
      TerminatedParts(a[1..], b);
    }
  }

  /** `encode_sse`: the lines are collected in a list, joined, and closed with an empty line. */
  method EncodeSse(e: Event) returns (text: string)
    ensures text == Encoded(e)
  {
    var lines := ["event: " + e.kind];
    var data := DataLines(e.data);
    for i := 0 to |data|
      invariant lines == ["event: " + e.kind] + Fields(data)[..i]
    {
      assert Fields(data)[..i + 1] == Fields(data)[..i] + [Fields(data)[i]];
      lines := lines + ["data: " + data[i]];
    }
    assert Fields(data)[..|data|] == Fields(data);
    var joined := Join(lines);
    TerminatedParts(["event: " + e.kind], Fields(data));
    text := joined + "\n\n";
    assert text == joined + "\n" + "\n";
  }

  /** `"\n".join`. */
  method Join(lines: seq<string>) returns (text: string)
    requires lines != []
    ensures text + "\n" == Terminated(lines)
  {
    text := lines[0];
    assert lines[..1] == [lines[0]] && Terminated(lines[..1]) == lines[0] + "\n";
    for i := 1 to |lines|
      invariant text + "\n" == Terminated(lines[..i])
    {
      TerminatedParts(lines[..i], [lines[i]]);
      assert lines[..i + 1] == lines[..i] + [lines[i]];
      assert Terminated([lines[i]]) == lines[i] + "\n";
      text := text + "\n" + lines[i];
    }
    assert lines[..|lines|] == lines;
  }

  function EncodedAll(es: seq<Event>): string {
    if es == [] then "" else EncodedAll(es[..|es| - 1]) + Encoded(es[|es| - 1])
  }

  // --- the decoder ------------------------------------------------------------------------------------

  /** The event type after a line. */
  function KindAfter(line: string, kind: string): string {
    if line == "" then "" else if HasPrefix(line, EVENT_FIELD) then Strip(line[|EVENT_FIELD|..]) else kind
  }

  /** What one line delivers. */
  function Delivered(line: string, kind: string): seq<Event> {
    if line != "" && !HasPrefix(line, EVENT_FIELD) && HasPrefix(line, DATA_FIELD)
    then [Event(kind, Strip(line[|DATA_FIELD|..]))] else []
  }

  function KindAfterAll(ls: seq<string>, kind: string): string {
    if ls == [] then kind else KindAfter(ls[|ls| - 1], KindAfterAll(ls[..|ls| - 1], kind))
  }

  function Events(ls: seq<string>, kind: string): seq<Event> {
    if ls == [] then []
    else Events(ls[..|ls| - 1], kind) + Delivered(ls[|ls| - 1], KindAfterAll(ls[..|ls| - 1], kind))
  }

  /** The decoder loop of `SseObserver._run`. */
  method Decode(text: string) returns (events: seq<Event>)
    ensures events == Events(Lines(text), "")
  {
    var ls, kind := Lines(text), "";
    events := [];
    for i := 0 to |ls|
      invariant kind == KindAfterAll(ls[..i], "") && events == Events(ls[..i], "")
    {
      var line := ls[i];
      assert ls[..i + 1][..i] == ls[..i];
      if line == "" {
        kind := "";
      } else if HasPrefix(line, EVENT_FIELD) {
        kind := Strip(line[|EVENT_FIELD|..]);
      } else if HasPrefix(line, DATA_FIELD) {
        events := events + [Event(kind, Strip(line[|DATA_FIELD|..]))];
      }
    }
    assert ls[..|ls|] == ls;
  }
}
