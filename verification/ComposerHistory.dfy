// The prompt history of the composer: record encoding, loading, trimming, appending and recall.

/** One record of the history file and its reading. String escapes follow section 7 of RFC 8259. */
module HistoryRecords {
  import opened Prelude

  const PREFIX := "{\"v\":1,\"prompt\":\""
  const MAX_ENTRY_BYTES := 65536
  const MAX_RECORD_BYTES := 393344 // 6 * MAX_ENTRY_BYTES + 128
  const MAX_ENTRIES := 200
  const MAX_FILE_BYTES := 4194304

  function Utf8Char(c: char): (n: nat)
    ensures 1 <= n <= 4
  {
    if c < '\U{80}' then 1 else if c < '\U{800}' then 2 else if c < '\U{10000}' then 3 else 4
  }

  function Utf8(s: string): nat {
    if s == "" then 0 else Utf8Char(s[0]) + Utf8(s[1..])
  }

  lemma {:induction false} Utf8Append(a: string, b: string)
    ensures Utf8(a + b) == Utf8(a) + Utf8(b)
  {
    if a == "" {
      assert a + b == b;
    } else {
      assert (a + b)[1..] == a[1..] + b;
      Utf8Append(a[1..], b);
    }
  }

  // ---- Writing ----

  function HexDigit(d: nat): char
    requires d < 16
  {
    "0123456789abcdef"[d]
  }

  function Escape(c: char): (e: string)
    ensures e != ""
  {
    if c == '"' then "\\\""
    else if c == '\\' then "\\\\"
    else if c == '\U{8}' then "\\b"
    else if c == '\U{9}' then "\\t"
    else if c == '\U{A}' then "\\n"
    else if c == '\U{C}' then "\\f"
    else if c == '\U{D}' then "\\r"
    else if c < ' ' then "\\u00" + [HexDigit(c as nat / 16), HexDigit(c as nat % 16)]
    else [c]
  }

  function EscapeAll(s: string): string {
    if s == "" then "" else Escape(s[0]) + EscapeAll(s[1..])
  }

  function Record(prompt: string): string {
    PREFIX + EscapeAll(prompt) + "\"}\n"
  }

  function Records(prompts: seq<string>): string {
    if prompts == [] then "" else Record(prompts[0]) + Records(prompts[1..])
  }

  function RecordsSize(prompts: seq<string>): nat {
    if prompts == [] then 0 else Utf8(Record(prompts[0])) + RecordsSize(prompts[1..])
  }

  // ---- Reading ----

  /** The characters at which `str.splitlines` cuts. */
  predicate Breaks(c: char) {
    '\U{A}' <= c <= '\U{D}' || '\U{1C}' <= c <= '\U{1E}' || c == '\U{85}' || c == '\U{2028}' || c == '\U{2029}'
  }

  function LineLength(text: string): (n: nat)
    ensures n <= |text| && (n < |text| ==> Breaks(text[n]))
    ensures forall i :: 0 <= i < n ==> !Breaks(text[i])
  {
    if text == "" || Breaks(text[0]) then 0 else 1 + LineLength(text[1..])
  }

  /** `str.splitlines`. */
  function SplitLines(text: string): seq<string>
    decreases |text|
  {
    if text == "" then []
    else
      var n := LineLength(text);
      if n == |text| then [text]
      else
        var skip := if text[n] == '\r' && n + 1 < |text| && text[n + 1] == '\n' then 2 else 1;
        [text[..n]] + SplitLines(text[n + skip..])
  }

  function HexValue(c: char): (v: int)
    ensures -1 <= v < 16
  {
    if '0' <= c <= '9' then c as int - '0' as int
    else if 'a' <= c <= 'f' then c as int - 'a' as int + 10
    else if 'A' <= c <= 'F' then c as int - 'A' as int + 10
    else -1
  }

  function Unit(s: string): (v: int)
    requires |s| == 4
    ensures -1 <= v < 0x10000
  {
    var a, b, c, d := HexValue(s[0]), HexValue(s[1]), HexValue(s[2]), HexValue(s[3]);
    if a < 0 || b < 0 || c < 0 || d < 0 then -1 else ((a * 16 + b) * 16 + c) * 16 + d
  }

  function Prepend(c: char, rest: Option<string>): Option<string> {
    match rest
    case None => None
    case Some(s) => Some([c] + s)
  }

  /** The rest of a record from inside its string: the decoded string, if the text closes it and the
      object right at the end. */
  function DecodeRest(s: string): Option<string>
    decreases |s|
  {
    if s == "" then None
    else if s[0] == '"' then (if s == "\"}" then Some("") else None)
    else if s[0] != '\\' then (if s[0] < ' ' then None else Prepend(s[0], DecodeRest(s[1..])))
    else if |s| < 2 then None
    else if s[1] == 'u' then
      (if |s| < 6 then None
       else
         var v := Unit(s[2..6]);
         if v < 0 || 0xD800 <= v < 0xE000 then None else Prepend(v as char, DecodeRest(s[6..])))
    else
      match Unescape(s[1])
      case None => None
      case Some(c) => Prepend(c, DecodeRest(s[2..]))
  }

  function Unescape(c: char): Option<char> {
    if c in ['"', '\\', '/'] then Some(c)
    else if c == 'b' then Some('\U{8}')
    else if c == 't' then Some('\U{9}')
    else if c == 'n' then Some('\U{A}')
    else if c == 'f' then Some('\U{C}')
    else if c == 'r' then Some('\U{D}')
    else None
  }

  function ParseLine(line: string): Option<string> {
    if line == "" || Utf8(line) > MAX_RECORD_BYTES || !(PREFIX <= line) then None
    else
      match DecodeRest(line[|PREFIX|..])
      case None => None
      case Some(prompt) => if EntryValid(prompt) then Some(prompt) else None
  }

  predicate EntryValid(prompt: string) {
    prompt != "" && Utf8(prompt) <= MAX_ENTRY_BYTES
  }

  function ParseLines(lines: seq<string>): Option<seq<string>> {
    if lines == [] then Some([])
    else
      match ParseLine(lines[0])
      case None => None
      case Some(prompt) =>
        match ParseLines(lines[1..])
        case None => None
        case Some(rest) => Some([prompt] + rest)
  }

  function Newest(prompts: seq<string>): seq<string> {
    if |prompts| <= MAX_ENTRIES then prompts else prompts[|prompts| - MAX_ENTRIES..]
  }

  /** Whether a text ends where a record does. */
  predicate AtRecordEnd(text: string) {
    text == "" || text[|text| - 1] == '\n'
  }

  function LoadAll(text: string): Option<seq<string>> {
    if Utf8(text) > MAX_FILE_BYTES || !AtRecordEnd(text) then None else ParseLines(SplitLines(text))
  }

  /** `_load`: the newest prompts of the file, or nothing where the source raises. */
  function Load(file: Option<string>): Option<seq<string>> {
    match file
    case None => Some([])
    case Some(text) =>
      match LoadAll(text)
      case None => None
      case Some(prompts) => Some(Newest(prompts))
  }

  // ---- A record is read back ----

  /** No character at which reading cuts a line although writing does not escape it. */
  predicate Clean(prompt: string) {
    '\U{85}' !in prompt && '\U{2028}' !in prompt && '\U{2029}' !in prompt
  }

  predicate AllClean(prompts: seq<string>) {
    forall i :: 0 <= i < |prompts| ==> Clean(prompts[i])
  }

  lemma HexDigitsBack(c: char)
    requires c < ' '
    ensures Unit(['0', '0', HexDigit(c as nat / 16), HexDigit(c as nat % 16)]) == c as int
  {
    assert forall d :: 0 <= d < 16 ==> HexValue(HexDigit(d)) == d;
  }

  /** How an escape is read: the character itself, a letter behind a backslash, or four hex digits. */
  lemma EscapeForm(c: char)
    ensures var e := Escape(c);
            || (e == [c] && c != '"' && c != '\\' && c >= ' ')
            || (|e| == 2 && e[0] == '\\' && e[1] != 'u' && Unescape(e[1]) == Some(c))
            || (|e| == 6 && e[0] == '\\' && e[1] == 'u' && Unit(e[2..]) == c as int && c < ' ')
  {
    if |Escape(c)| == 6 {
      HexDigitsBack(c);
      assert Escape(c)[2..] == ['0', '0', HexDigit(c as nat / 16), HexDigit(c as nat % 16)];
    }
  }

  lemma EscapeDecodes(c: char, rest: string)
    ensures DecodeRest(Escape(c) + rest) == Prepend(c, DecodeRest(rest))
  {
    var e := Escape(c);
    var s := e + rest;
    EscapeForm(c);
    hide Escape, Unescape, Unit, HexValue, HexDigit;
    assert s[0] == e[0] && s[|e|..] == rest;
    if |e| == 6 {
      assert s[2..6] == e[2..] && s[1] == e[1];
    }
  }

  lemma {:induction false} EscapesDecode(prompt: string, rest: string)
    ensures DecodeRest(rest) == None ==> DecodeRest(EscapeAll(prompt) + rest) == None
    ensures DecodeRest(rest).Some? ==>
      DecodeRest(EscapeAll(prompt) + rest) == Some(prompt + DecodeRest(rest).value)
  {
    hide DecodeRest, Escape;
    if prompt == "" {
      assert EscapeAll(prompt) + rest == rest;
      if DecodeRest(rest).Some? {
        assert prompt + DecodeRest(rest).value == DecodeRest(rest).value;
      }
    } else {
      var tail := EscapeAll(prompt[1..]) + rest;
      EscapesDecode(prompt[1..], rest);
      EscapeDecodes(prompt[0], tail);
      assert EscapeAll(prompt) + rest == Escape(prompt[0]) + tail;
      assert prompt == [prompt[0]] + prompt[1..];
      if DecodeRest(rest).Some? {
        assert [prompt[0]] + (prompt[1..] + DecodeRest(rest).value) == prompt + DecodeRest(rest).value;
      }
    }
  }

  lemma {:induction false} EscapeSize(prompt: string)
    ensures Utf8(EscapeAll(prompt)) <= 6 * Utf8(prompt)
  {
    if prompt != "" {
      EscapeSize(prompt[1..]);
      Utf8Append(Escape(prompt[0]), EscapeAll(prompt[1..]));
      EscapedCharSize(prompt[0]);
    }
  }

  lemma EscapedCharSize(c: char)
    ensures Utf8(Escape(c)) <= 6 * Utf8Char(c)
  {
    var e := Escape(c);
    if e == [c] {
      assert e[1..] == "";
    } else {
      AsciiSize(e);
    }
  }

  lemma {:induction false} AsciiSize(s: string)
    requires forall i :: 0 <= i < |s| ==> s[i] < '\U{80}'
    ensures Utf8(s) == |s|
  {
    if s != "" {
      AsciiSize(s[1..]);
    }
  }

  /** A record is never larger than six times its prompt and a constant, and never fills the file. */
  lemma RecordSize(prompt: string)
    ensures Utf8(Record(prompt)) <= 6 * Utf8(prompt) + 20
    ensures Utf8(PREFIX + EscapeAll(prompt) + "\"}") == Utf8(Record(prompt)) - 1
    ensures EntryValid(prompt) ==> Utf8(Record(prompt)) <= MAX_RECORD_BYTES < MAX_FILE_BYTES
  {
    hide Utf8, Escape, EscapeAll, EntryValid;
    var head := PREFIX + EscapeAll(prompt);
    EscapeSize(prompt);
    AsciiSize(PREFIX);
    AsciiSize("\"}");
    AsciiSize("\n");
    Utf8Append(PREFIX, EscapeAll(prompt));
    Utf8Append(head, "\"}");
    Utf8Append(head + "\"}", "\n");
    assert "\"}" + "\n" == "\"}\n";
    assert Record(prompt) == head + "\"}" + "\n";
    ValidSize(prompt);
  }

  lemma ValidSize(prompt: string)
    ensures EntryValid(prompt) ==> Utf8(prompt) <= MAX_ENTRY_BYTES
  {
  }

  lemma LineReadsBack(prompt: string)
    requires EntryValid(prompt)
    ensures ParseLine(PREFIX + EscapeAll(prompt) + "\"}") == Some(prompt)
  {
    var line := PREFIX + EscapeAll(prompt) + "\"}";
    RecordSize(prompt);
    ClosingDecodes();
    EscapesDecode(prompt, "\"}");
    hide Utf8, Escape, EscapeAll, DecodeRest;
    assert prompt + "" == prompt;
    assert line[|PREFIX|..] == EscapeAll(prompt) + "\"}";
    assert PREFIX <= line;
  }

  lemma ClosingDecodes()
    ensures DecodeRest("\"}") == Some("")
  {
  }

  predicate HasBreak(s: string) {
    exists i :: 0 <= i < |s| && Breaks(s[i])
  }

  lemma HasBreakAppend(a: string, b: string)
    ensures HasBreak(a + b) <==> HasBreak(a) || HasBreak(b)
  {
    hide Breaks;
    if HasBreak(a + b) {
      var i :| 0 <= i < |a + b| && Breaks((a + b)[i]);
      assert (a + b)[i] == if i < |a| then a[i] else b[i - |a|];
    }
    if i :| 0 <= i < |a| && Breaks(a[i]) {
      assert (a + b)[i] == a[i];
    }
    if i :| 0 <= i < |b| && Breaks(b[i]) {
      assert (a + b)[|a| + i] == b[i];
    }
  }

  lemma EscapedCharBreaks(c: char)
    ensures HasBreak(Escape(c)) <==> !Clean([c])
  {
    var e := Escape(c);
    if e == [c] {
      assert HasBreak(e) <==> Breaks(e[0]);
    } else {
      forall i | 0 <= i < |e|
        ensures !Breaks(e[i])
      {
        assert forall d :: 0 <= d < 16 ==> !Breaks(HexDigit(d));
      }
    }
  }

  /** The escaped text has a line break exactly when the prompt has one of the three unescaped ones. */
  lemma {:induction false} EscapedBreaks(prompt: string)
    ensures HasBreak(EscapeAll(prompt)) <==> !Clean(prompt)
  {
    if prompt != "" {
      hide Escape, HasBreak;
      EscapedBreaks(prompt[1..]);
      EscapedCharBreaks(prompt[0]);
      HasBreakAppend(Escape(prompt[0]), EscapeAll(prompt[1..]));
      assert prompt == [prompt[0]] + prompt[1..];
    }
  }

  // ---- A file of records is read back ----

  lemma LineLengthIs(text: string, n: nat)
    requires n < |text| && !HasBreak(text[..n]) && Breaks(text[n])
    ensures LineLength(text) == n
  {
    assert forall i :: 0 <= i < n ==> !Breaks(text[..n][i]) && text[..n][i] == text[i];
  }

  lemma DropAppend(a: string, b: string, k: nat)
    requires k <= |a|
    ensures (a + b)[k..] == a[k..] + b
  {
  }

  /** Splitting after a finished line. */
  lemma {:induction false} SplitAppend(a: string, b: string)
    requires AtRecordEnd(a)
    ensures SplitLines(a + b) == SplitLines(a) + SplitLines(b)
    decreases |a|
  {
    hide SplitLines, LineLength, CutAtEnd;
    if a == "" {
      assert a + b == b;
      NothingSplit();
    } else {
      var n, skip := FirstCut(a);
      FirstCutOfAppend(a, b, n, skip);
      DropAppend(a, b, n + skip);
      SplitAppend(a[n + skip..], b);
      var rest := a[n + skip..];
      Regrouped(a[..n], SplitLines(rest), SplitLines(b));
    }
  }

  lemma Regrouped(line: string, a: seq<string>, b: seq<string>)
    ensures [line] + (a + b) == [line] + a + b
  {
  }

  predicate CutAtEnd(text: string, n: nat, skip: nat) {
    && n < |text| && n == LineLength(text)
    && skip == (if text[n] == '\r' && n + 1 < |text| && text[n + 1] == '\n' then 2 else 1)
  }

  lemma FirstCut(a: string) returns (n: nat, skip: nat)
    requires a != "" && AtRecordEnd(a)
    ensures CutAtEnd(a, n, skip) && n + skip <= |a| && AtRecordEnd(a[n + skip..])
    ensures SplitLines(a) == [a[..n]] + SplitLines(a[n + skip..])
  {
    n := LineLength(a);
    assert Breaks(a[|a| - 1]);
    assert n < |a|;
    hide Breaks;
    skip := if a[n] == '\r' && n + 1 < |a| && a[n + 1] == '\n' then 2 else 1;
  }

  lemma FirstCutOfAppend(a: string, b: string, n: nat, skip: nat)
    requires a != "" && AtRecordEnd(a) && CutAtEnd(a, n, skip)
    ensures CutAtEnd(a + b, n, skip) && (a + b)[..n] == a[..n]
    ensures SplitLines(a + b) == [a[..n]] + SplitLines((a + b)[n + skip..])
  {
    assert (a + b)[..n] == a[..n] && (a + b)[n] == a[n];
    assert !HasBreak(a[..n]);
    LineLengthIs(a + b, n);
    assert n + 1 < |a| ==> (a + b)[n + 1] == a[n + 1];
  }

  lemma {:induction false} ParseAppend(a: seq<string>, b: seq<string>)
    ensures ParseLines(a + b) ==
      if ParseLines(a).Some? && ParseLines(b).Some? then Some(ParseLines(a).value + ParseLines(b).value) else None
  {
    hide ParseLine;
    if a == [] {
      assert a + b == b;
      assert ParseLines(b).Some? ==> [] + ParseLines(b).value == ParseLines(b).value;
    } else {
      ParseAppend(a[1..], b);
      assert (a + b)[1..] == a[1..] + b;
      if ParseLines(a).Some? && ParseLines(b).Some? {
        var first := ParseLine(a[0]).value;
        assert [first] + (ParseLines(a[1..]).value + ParseLines(b).value) == ParseLines(a).value + ParseLines(b).value;
      }
    }
  }

  /** A record is read back exactly when its prompt is clean: otherwise its first line is cut inside
      the string. */
  lemma RecordReadsBack(prompt: string)
    requires EntryValid(prompt)
    ensures ParseLines(SplitLines(Record(prompt))) == if Clean(prompt) then Some([prompt]) else None
  {
    var body := EscapeAll(prompt);
    var line := PREFIX + body + "\"}";
    var text := Record(prompt);
    EscapedBreaks(prompt);
    HasBreakAppend(PREFIX, body);
    HasBreakAppend(PREFIX + body, "\"}");
    NoFixedBreaks();
    hide HasBreak, EscapeAll, Clean;
    assert text == line + "\n";
    if Clean(prompt) {
      assert text[..|line|] == line;
      LineLengthIs(text, |line|);
      assert text[|line| + 1..] == "";
      LineReadsBack(prompt);
      assert SplitLines(text) == [line];
      hide ParseLine;
      assert ParseLines([line]) == Some([prompt]) by {
        assert [line][1..] == [];
        assert [prompt] + [] == [prompt];
      }
    } else {
      CutInside(prompt);
    }
  }

  lemma NoFixedBreaks()
    ensures !HasBreak(PREFIX) && !HasBreak("\"}")
  {
    assert forall i :: 0 <= i < |PREFIX| ==> !Breaks(PREFIX[i]);
  }

  lemma CutInside(prompt: string)
    requires HasBreak(EscapeAll(prompt))
    ensures ParseLines(SplitLines(Record(prompt))) == None
  {
    var body, text := EscapeAll(prompt), Record(prompt);
    var n := LineLength(body);
    UnfinishedRefused(prompt, n);
    NoFixedBreaks();
    HasBreakAppend(PREFIX, body[..n]);
    assert n < |body| && Breaks(body[n]) && !HasBreak(body[..n]);
    hide EscapeAll, HasBreak, Breaks, ParseLine, LineLength;
    var m := |PREFIX| + n;
    CutAt(PREFIX, body, "\"}\n", n);
    LineLengthIs(text, m);
    FirstLine(text, m);
  }

  lemma CutAt(a: string, b: string, c: string, n: nat)
    requires n < |b|
    ensures (a + b + c)[..|a| + n] == a + b[..n] && (a + b + c)[|a| + n] == b[n]
  {
  }

  lemma FirstLine(text: string, m: nat)
    requires m < |text| && LineLength(text) == m && ParseLine(text[..m]) == None
    ensures ParseLines(SplitLines(text)) == None
  {
  }

  /** No proper beginning of the escaped text closes the record. */
  lemma {:induction false} UnfinishedRefused(prompt: string, n: nat)
    requires n <= |EscapeAll(prompt)|
    ensures ParseLine(PREFIX + EscapeAll(prompt)[..n]) == None
  {
    UnfinishedDecodes(prompt, n);
    var line := PREFIX + EscapeAll(prompt)[..n];
    assert line[|PREFIX|..] == EscapeAll(prompt)[..n];
  }

  lemma {:induction false} UnfinishedDecodes(prompt: string, n: nat)
    requires n <= |EscapeAll(prompt)|
    ensures DecodeRest(EscapeAll(prompt)[..n]) == None
  {
    if prompt != "" {
      var e, tail := Escape(prompt[0]), EscapeAll(prompt[1..]);
      if n < |e| {
        assert (e + tail)[..n] == e[..n];
        UnfinishedEscape(prompt[0], n);
      } else {
        UnfinishedDecodes(prompt[1..], n - |e|);
        EscapeDecodes(prompt[0], tail[..n - |e|]);
        assert (e + tail)[..n] == e + tail[..n - |e|];
      }
    }
  }

  lemma UnfinishedEscape(c: char, n: nat)
    requires n < |Escape(c)|
    ensures DecodeRest(Escape(c)[..n]) == None
  {
  }

  lemma {:induction false} RecordsReadBack(prompts: seq<string>)
    requires forall i :: 0 <= i < |prompts| ==> EntryValid(prompts[i])
    ensures AtRecordEnd(Records(prompts)) && Utf8(Records(prompts)) == RecordsSize(prompts)
    ensures ParseLines(SplitLines(Records(prompts))) == if AllClean(prompts) then Some(prompts) else None
  {
    hide EntryValid, Clean, Record, ParseLine, SplitLines, ParseLines;
    if prompts == [] {
      NothingSplit();
    } else {
      var first, rest := Record(prompts[0]), Records(prompts[1..]);
      RecordsReadBack(prompts[1..]);
      RecordReadsBack(prompts[0]);
      RecordEnds(prompts[0]);
      Utf8Append(first, rest);
      SplitAppend(first, rest);
      ParseAppend(SplitLines(first), SplitLines(rest));
      assert prompts == [prompts[0]] + prompts[1..];
      assert AllClean(prompts) <==> Clean(prompts[0]) && AllClean(prompts[1..]);
    }
  }

  lemma NothingSplit()
    ensures SplitLines("") == [] && ParseLines([]) == Some([])
  {
  }

  lemma RecordEnds(prompt: string)
    ensures Record(prompt) != "" && AtRecordEnd(Record(prompt))
  {
  }

  /** Rewriting: a file of the records of at most 200 prompts loads to them exactly when all are clean. */
  lemma {:induction false} RewrittenLoads(prompts: seq<string>)
    requires forall i :: 0 <= i < |prompts| ==> EntryValid(prompts[i])
    requires |prompts| <= MAX_ENTRIES && RecordsSize(prompts) <= MAX_FILE_BYTES
    ensures Load(Some(Records(prompts))) == if AllClean(prompts) then Some(prompts) else None
  {
    RecordsReadBack(prompts);
    hide EntryValid, Utf8, SplitLines, ParseLines, Records, RecordsSize, AtRecordEnd, AllClean;
  }

  /** Appending: what a file loads to after a record was added at its end. */
  lemma AppendedLoads(text: string, prompt: string)
    requires AtRecordEnd(text) && EntryValid(prompt) && Utf8(text) + Utf8(Record(prompt)) <= MAX_FILE_BYTES
    ensures AtRecordEnd(text + Record(prompt))
    ensures LoadAll(text + Record(prompt)) ==
      if LoadAll(text).Some? && Clean(prompt) then Some(LoadAll(text).value + [prompt]) else None
  {
    RecordReadsBack(prompt);
    RecordEnds(prompt);
    hide Record, Clean, EntryValid;
    Utf8Append(text, Record(prompt));
    SplitAppend(text, Record(prompt));
    ParseAppend(SplitLines(text), SplitLines(Record(prompt)));
  }
}

/** What trimming keeps, and where recall moves. */
module HistoryRules {
  import opened HistoryRecords
  import opened Prelude

  predicate Fits(entries: seq<string>) {
    |entries| <= MAX_ENTRIES && RecordsSize(entries) <= MAX_FILE_BYTES
  }

  function LongestFitting(entries: seq<string>): seq<string> {
    if entries == [] || Fits(entries) then entries else LongestFitting(entries[1..])
  }

  predicate AllValid(entries: seq<string>) {
    forall i :: 0 <= i < |entries| ==> EntryValid(entries[i])
  }

  /** The kept entries are a suffix, they fit, no longer suffix fits, and the newest entry is kept. */
  lemma {:induction false} LongestFittingIsLongest(entries: seq<string>)
    requires AllValid(entries)
    ensures var kept := LongestFitting(entries);
            && |kept| <= |entries| && kept == entries[|entries| - |kept|..] && Fits(kept)
            && (forall k :: 0 <= k < |entries| - |kept| ==> !Fits(entries[k..]))
            && (entries != [] ==> kept != [] && kept[|kept| - 1] == entries[|entries| - 1])
  {
    if entries != [] && !Fits(entries) {
      var rest := entries[1..];
      if rest == [] {
        OneRecordFits(entries);
      }
      LongestFittingIsLongest(rest);
      var kept := LongestFitting(rest);
      assert rest[|rest| - |kept|..] == entries[|entries| - |kept|..];
      forall k | 0 <= k < |entries| - |kept|
        ensures !Fits(entries[k..])
      {
        if k == 0 {
          assert entries[0..] == entries;
        } else {
          assert entries[k..] == rest[k - 1..];
        }
      }
    }
  }

  lemma OneRecordFits(entries: seq<string>)
    requires AllValid(entries) && |entries| == 1
    ensures Fits(entries)
  {
    RecordSize(entries[0]);
    hide EntryValid, Record, Utf8;
    assert entries[1..] == [];
    assert RecordsSize(entries) == Utf8(Record(entries[0])) + RecordsSize(entries[1..]);
    assert EntryValid(entries[0]);
  }

  // ---- Recall ----

  /** Position `|entries|` is the empty draft; smaller ones are entries. */
  function TextAt(entries: seq<string>, position: nat): string
    requires position <= |entries|
  {
    if position == |entries| then "" else entries[position]
  }

  function Moved(entries: seq<string>, position: nat, direction: int): (p: nat)
    requires position <= |entries|
    ensures p <= |entries|
  {
    var next := position + direction;
    if next < 0 then 0 else if next > |entries| then |entries| else next
  }

  /** Whether a key press in a composer with this text and caret recalls anything. */
  predicate Recalls(entries: seq<string>, position: nat, direction: int, text: string, caret: int)
    requires position <= |entries|
  {
    && '\n' !in text && (caret == 0 || caret == |text|)
    && text == TextAt(entries, position)
    && entries != [] && (position == |entries| ==> direction < 0)
  }

  predicate IsDirection(d: int) {
    d == -1 || d == 1
  }

  /** Key presses, each in the text that the one before left behind, the caret at its end. */
  function Run(entries: seq<string>, directions: seq<int>): (result: (nat, string))
    ensures result.0 <= |entries|
  {
    if directions == [] then (|entries|, "")
    else
      var (position, text) := Run(entries, directions[..|directions| - 1]);
      var direction := directions[|directions| - 1];
      if Recalls(entries, position, direction, text, |text|) then
        var p := Moved(entries, position, direction);
        (p, TextAt(entries, p))
      else (position, text)
  }

  /** A walk clamped at the oldest entry and at the draft. */
  function Walk(entries: seq<string>, directions: seq<int>): (p: nat)
    ensures p <= |entries|
  {
    if directions == [] then |entries|
    else Moved(entries, Walk(entries, directions[..|directions| - 1]), directions[|directions| - 1])
  }

  predicate NewlineFree(entries: seq<string>) {
    forall i :: 0 <= i < |entries| ==> '\n' !in entries[i]
  }

  predicate AllUp(directions: seq<int>) {
    forall i :: 0 <= i < |directions| ==> directions[i] == -1
  }

  lemma {:induction false} RunShowsItsPosition(entries: seq<string>, directions: seq<int>)
    ensures Run(entries, directions).1 == TextAt(entries, Run(entries, directions).0)
  {
    if directions != [] {
      RunShowsItsPosition(entries, directions[..|directions| - 1]);
    }
  }

  /** Over a stretch whose newer entries have no newline, every run is the clamped walk. */
  lemma {:induction false} RunIsWalk(entries: seq<string>, directions: seq<int>, oldest: nat)
    requires oldest <= |entries| && forall i :: oldest < i < |entries| ==> '\n' !in entries[i]
    requires forall i :: 0 <= i < |directions| ==> IsDirection(directions[i])
    requires NewlineFree(entries) || (AllUp(directions) && |directions| <= |entries| - oldest)
    ensures Run(entries, directions).0 == Walk(entries, directions)
    ensures AllUp(directions) && |directions| <= |entries| ==> Walk(entries, directions) == |entries| - |directions|
  {
    if directions != [] {
      var before := directions[..|directions| - 1];
      RunIsWalk(entries, before, oldest);
      RunShowsItsPosition(entries, before);
    }
  }

  function Ups(n: nat): (ds: seq<int>)
    ensures |ds| == n && AllUp(ds)
  {
    seq(n, i => -1)
  }

  /** Recall is the clamped walk on every run of key presses exactly when no entry has a newline: an
      entry with one can be reached but not left. */
  lemma RecallIsWalkIff(entries: seq<string>)
    ensures NewlineFree(entries) <==>
      forall ds: seq<int> :: (forall i :: 0 <= i < |ds| ==> IsDirection(ds[i])) ==> Run(entries, ds).0 == Walk(entries, ds)
  {
    if NewlineFree(entries) {
      forall ds: seq<int> | forall i :: 0 <= i < |ds| ==> IsDirection(ds[i])
        ensures Run(entries, ds).0 == Walk(entries, ds)
      {
        RunIsWalk(entries, ds, 0);
      }
    } else {
      var i := NewestWithNewline(entries);
      var ups := Ups(|entries| - i);
      var ds := ups + [1];
      RunIsWalk(entries, ups, i);
      RunShowsItsPosition(entries, ups);
      assert ds[..|ds| - 1] == ups;
      assert Walk(entries, ds) == i + 1 && Run(entries, ds).0 == i;
      assert forall k :: 0 <= k < |ds| ==> IsDirection(ds[k]);
    }
  }

  lemma {:induction false} NewestWithNewline(entries: seq<string>) returns (i: nat)
    requires !NewlineFree(entries)
    ensures i < |entries| && '\n' in entries[i] && forall j :: i < j < |entries| ==> '\n' !in entries[j]
  {
    if '\n' in entries[|entries| - 1] {
      i := |entries| - 1;
    } else {
      i := NewestWithNewline(entries[..|entries| - 1]);
    }
  }
}

module ComposerHistories {
  import opened HistoryRecords
  import opened HistoryRules
  import opened Prelude
  import opened Texts

  class HistoryFile {
    var content: Option<string>

    constructor (content: Option<string>)
      ensures this.content == content
    {
      this.content := content;
    }

    function Text(): string
      reads this
    {
      TextOf(content)
    }
  }

  /** What the file system answers when a history is bound to a path. */
  datatype Access = Unresolvable | Unreadable | Unprotectable | Usable

  /** How writing ends: completely, or with an error after some characters. */
  datatype Writing = Succeeds | FailsAfter(written: nat)

  const UNAVAILABLE := "Persistent composer history is unavailable for this frontend run."

  lemma PoppedOldest(persistent: seq<string>, local: seq<string>)
    requires local != []
    ensures var entries := persistent + local;
            && (persistent != [] ==> entries[1..] == persistent[1..] + local)
            && (persistent == [] ==> entries[1..] == persistent + local[1..])
            && (!Fits(entries) ==> LongestFitting(entries) == LongestFitting(entries[1..]))
  {
  }

  lemma {:induction false} ParsedAreValid(lines: seq<string>)
    ensures ParseLines(lines).Some? ==> AllValid(ParseLines(lines).value)
  {
    hide EntryValid;
    if lines != [] {
      ParsedAreValid(lines[1..]);
      ParsedIsValid(lines[0]);
    }
  }

  lemma ParsedIsValid(line: string)
    ensures ParseLine(line).Some? ==> EntryValid(ParseLine(line).value)
  {
  }

  lemma LoadedIsValid(file: Option<string>)
    ensures Load(file).Some? ==> AllValid(Load(file).value) && |Load(file).value| <= MAX_ENTRIES
    ensures Load(file).Some? ==> AtRecordEnd(TextOf(file))
  {
    if file.Some? {
      ParsedAreValid(SplitLines(file.value));
    }
  }

  /** If a file loads to fewer than 200 entries, adding a clean record adds exactly its entry. */
  lemma AppendedAgrees(file: Option<string>, entries: seq<string>, value: string)
    requires EntryValid(value) && |entries| < MAX_ENTRIES
    requires var text := TextOf(file);
             AtRecordEnd(text) && Utf8(text) + Utf8(Record(value)) <= MAX_FILE_BYTES
    ensures var text := TextOf(file);
            && (Load(file) == Some(entries) && Clean(value) ==> Load(Some(text + Record(value))) == Some(entries + [value]))
            && (!Clean(value) ==> Load(Some(text + Record(value))) == None)
  {
    var text := TextOf(file);
    AppendedLoads(text, value);
    NothingSplit();
  }

  lemma CleanAppend(entries: seq<string>, value: string)
    ensures AllClean(entries + [value]) <==> AllClean(entries) && Clean(value)
  {
    hide Clean;
    var longer := entries + [value];
    assert longer[|entries|] == value;
    assert forall i :: 0 <= i < |entries| ==> longer[i] == entries[i];
  }

  lemma CleanNewest(entries: seq<string>, value: string)
    ensures entries != [] && entries[|entries| - 1] == value && AllClean(entries) ==> Clean(value)
  {
  }

  lemma TrimmedIsValid(entries: seq<string>, value: string)
    requires AllValid(entries) && EntryValid(value)
    ensures AllValid(entries + [value])
    ensures AllValid(LongestFitting(entries + [value])) && |LongestFitting(entries + [value])| <= MAX_ENTRIES
  {
    LongestFittingIsLongest(entries + [value]);
  }

  lemma FitsIsKept(entries: seq<string>)
    ensures Fits(entries) ==> LongestFitting(entries) == entries && |entries| <= MAX_ENTRIES
  {
  }

  /** The file that is written for a new entry ends with a record, loads to the entries if all are
      clean, and to nothing if the new one is not. */
  lemma PersistedLoads(file: Option<string>, before: seq<string>, value: string, entries: seq<string>, compact: bool)
    requires EntryValid(value) && AllValid(before) && |before| <= MAX_ENTRIES
    requires entries == LongestFitting(before + [value]) && (compact <==> !Fits(before + [value]))
    requires AtRecordEnd(TextOf(file)) && (AllClean(before) ==> Load(file) == Some(before))
    ensures var text, record := TextOf(file), Record(value);
            var rewrites := compact || Utf8(text) + Utf8(record) > MAX_FILE_BYTES;
            var written := if rewrites then Records(entries) else text + record;
            && (rewrites ==> RecordsSize(entries) <= MAX_FILE_BYTES)
            && AtRecordEnd(written)
            && (AllClean(entries) ==> Load(Some(written)) == Some(entries))
            && (!Clean(value) ==> Load(Some(written)) == None)
  {
    var text, record := TextOf(file), Record(value);
    TrimmedIsValid(before, value);
    LongestFittingIsLongest(before + [value]);
    CleanNewest(entries, value);
    FitsIsKept(before + [value]);
    FittingSize(entries);
    hide EntryValid, Clean, AllClean, Load, Record, Records, RecordsSize, Utf8, AllValid, AtRecordEnd, LongestFitting, Fits;
    if compact || Utf8(text) + Utf8(record) > MAX_FILE_BYTES {
      RewrittenEntries(entries);
    } else {
      CleanAppend(before, value);
      AppendedLoads(text, value);
      AppendedAgrees(file, before, value);
    }
  }

  function TextOf(file: Option<string>): string {
    if file.Some? then file.value else ""
  }

  lemma FittingSize(entries: seq<string>)
    ensures Fits(entries) ==> |entries| <= MAX_ENTRIES && RecordsSize(entries) <= MAX_FILE_BYTES
  {
  }

  lemma {:induction false} RewrittenEntries(entries: seq<string>)
    requires AllValid(entries) && |entries| <= MAX_ENTRIES && RecordsSize(entries) <= MAX_FILE_BYTES
    ensures AtRecordEnd(Records(entries))
    ensures Load(Some(Records(entries))) == if AllClean(entries) then Some(entries) else None
  {
    RewrittenLoads(entries);
    RecordsReadBack(entries);
  }

  class ComposerHistory {
    var path: HistoryFile?
    var persistent: seq<string>
    var local: seq<string>
    var cursor: Option<nat>
    var draft: string
    var lastRecalled: Option<string>
    var enabled: bool
    var error: string

    function Entries(): seq<string>
      reads this
    {
      persistent + local
    }

    function Position(): nat
      reads this
    {
      if cursor.Some? then cursor.value else |Entries()|
    }

    /** Entries are bounded, recall points at what it showed, and while persistence is enabled the file
        loads to exactly the entries in memory, unless one of them cannot be read back. */
    ghost predicate Valid()
      reads this, path
    {
      && AllValid(Entries()) && |Entries()| <= MAX_ENTRIES
      && draft == "" && Position() <= |Entries()|
      && (cursor.Some? ==> cursor.value < |Entries()|)
      && lastRecalled == (if cursor.Some? then Some(Entries()[cursor.value]) else None)
      && (enabled ==> path != null && AtRecordEnd(path.Text()))
      && (enabled && AllClean(Entries()) ==> Load(path.content) == Some(Entries()))
    }

    constructor (path: HistoryFile?, access: Access)
      ensures Valid()
      ensures enabled <==> path != null && access.Usable? && old(Load(path.content)).Some?
      ensures enabled ==> this.path == path && Load(path.content) == Some(Entries()) == old(Load(path.content))
    {
      this.path, persistent, local := null, [], [];
      cursor, draft, lastRecalled, enabled, error := None, "", None, false, "";
      new;
      var bound := Rebind(path, access);
    }

    method ResetNavigation()
      modifies `cursor, `draft, `lastRecalled
      ensures cursor == None && draft == "" && lastRecalled == None
    {
      cursor, draft, lastRecalled := None, "", None;
    }

    method Disable(message: string)
      modifies `path, `enabled, `error
      ensures path == null && !enabled && error == message
    {
      path, enabled, error := null, false, message;
    }

    method Rebind(path: HistoryFile?, access: Access) returns (bound: bool)
      requires Valid()
      modifies this
      ensures Valid()
      ensures bound <==> enabled
      ensures old(enabled) && path == old(this.path) && !access.Unresolvable? ==>
        bound && Entries() == old(Entries()) && cursor == old(cursor)
      ensures !(old(enabled) && path == old(this.path) && !access.Unresolvable?) ==>
        && (bound <==> path != null && access.Usable? && Load(path.content).Some?)
        && (bound ==> this.path == path && Load(path.content) == Some(Entries()) && local == [])
    {
      hide Load, EntryValid, Clean, AtRecordEnd;
      if path != null && !access.Unresolvable? && path == this.path && enabled {
        return true;
      }
      this.path, persistent, local := null, [], [];
      ResetNavigation();
      enabled, error := false, "";
      if path == null {
        return false;
      }
      if access.Unresolvable? || access.Unreadable? {
        Disable(UNAVAILABLE);
        return false;
      }
      this.path := path;
      LoadedIsValid(path.content);
      match Load(path.content) {
        case None =>
          Disable(UNAVAILABLE);
          return false;
        case Some(entries) =>
          persistent := entries;
          assert Entries() == entries;
          if access.Unprotectable? {
            Disable(UNAVAILABLE);
            return false;
          }
          enabled := true;
          return true;
      }
    }

    /** `_trim_memory`. */
    method TrimMemory() returns (changed: bool)
      requires AllValid(Entries()) && local != []
      modifies `persistent, `local
      ensures Entries() == LongestFitting(old(Entries())) && local != []
      ensures changed <==> !Fits(old(Entries()))
      ensures persistent == [] || local == old(local)
    {
      changed := false;
      while |persistent| + |local| > MAX_ENTRIES
        invariant AllValid(Entries()) && local != []
        invariant LongestFitting(Entries()) == LongestFitting(old(Entries()))
        invariant changed ==> !Fits(old(Entries()))
        invariant !changed ==> Entries() == old(Entries())
        invariant persistent == [] || local == old(local)
        decreases |Entries()|
      {
        changed := true;
        PoppedOldest(persistent, local);
        if persistent != [] {
          persistent := persistent[1..];
        } else {
          local := local[1..];
        }
      }
      while RecordsSize(Entries()) > MAX_FILE_BYTES
        invariant AllValid(Entries()) && local != [] && |Entries()| <= MAX_ENTRIES
        invariant LongestFitting(Entries()) == LongestFitting(old(Entries()))
        invariant changed ==> !Fits(old(Entries()))
        invariant !changed ==> Entries() == old(Entries())
        invariant persistent == [] || local == old(local)
        decreases |Entries()|
      {
        changed := true;
        PoppedOldest(persistent, local);
        if persistent != [] {
          persistent := persistent[1..];
        } else if |local| > 1 {
          local := local[1..];
        } else {
          OneRecordFits(Entries());
          break;
        }
      }
    }

    /** `append`. Afterwards, by the invariant, the file still loads to the entries if all are clean. */
    method Append(prompt: string, writing: Writing) returns (added: bool)
      requires Valid()
      modifies this, path
      ensures Valid()
      ensures var value, entries := Strip(prompt), old(Entries());
              added <==> EntryValid(value) && !(entries != [] && entries[|entries| - 1] == value)
      ensures added ==> Entries() == LongestFitting(old(Entries()) + [Strip(prompt)])
      ensures !added ==> Entries() == old(Entries()) && (old(path) != null ==> old(path).content == old(path.content))
      ensures enabled <==> old(enabled) && (added ==> writing.Succeeds?)
      ensures old(enabled) && enabled ==> path == old(path)
      ensures added && enabled && !Clean(Strip(prompt)) ==> Load(path.content) == None
      ensures added ==> persistent == [] || local == old(local) + [Strip(prompt)]
      ensures cursor == if EntryValid(Strip(prompt)) then None else old(cursor)
      ensures error == if old(enabled) && !enabled then UNAVAILABLE else old(error)
    {
      var value := Strip(prompt);
      if value == "" || Utf8(value) > MAX_ENTRY_BYTES {
        return false;
      }
      ghost var entries := Entries();
      assert EntryValid(value);
      hide EntryValid, Utf8, Clean, AllClean, Load, AtRecordEnd, Fits, Strip;
      if Entries() != [] && Entries()[|Entries()| - 1] == value {
        ResetNavigation();
        return false;
      }
      TrimmedIsValid(entries, value);
      hide AllValid, LongestFitting;
      local := local + [value];
      assert Entries() == entries + [value];
      var compact := TrimMemory();
      ResetNavigation();
      if !enabled || path == null {
        return true;
      }
      Persist(entries, value, compact, writing);
      return true;
    }

    /** Writes an entry just added to the end of the file, or rewrites the file from memory. */
    method Persist(ghost before: seq<string>, value: string, compact: bool, writing: Writing)
      requires enabled && path != null && AtRecordEnd(path.Text())
      requires AllValid(Entries()) && Entries() == LongestFitting(before + [value]) && EntryValid(value)
      requires AllValid(before) && |before| <= MAX_ENTRIES && (compact <==> !Fits(before + [value]))
      requires AllClean(before) ==> Load(path.content) == Some(before)
      modifies path, `path, `enabled, `error
      ensures enabled <==> writing.Succeeds?
      ensures error == if enabled then old(error) else UNAVAILABLE
      ensures enabled ==> path == old(path) && AtRecordEnd(path.Text())
      ensures enabled && AllClean(Entries()) ==> Load(path.content) == Some(Entries())
      ensures enabled && !Clean(value) ==> Load(path.content) == None
    {
      var record, text := Record(value), path.Text();
      PersistedLoads(path.content, before, value, Entries(), compact);
      hide EntryValid, Clean, AllClean, Load, Record, Records, RecordsSize, Utf8, AllValid, AtRecordEnd, LongestFitting, Fits;
      if compact || Utf8(text) + Utf8(record) > MAX_FILE_BYTES {
        if RecordsSize(Entries()) > MAX_FILE_BYTES || !writing.Succeeds? {
          Disable(UNAVAILABLE);
        } else {
          path.content := Some(Records(Entries()));
        }
      } else if writing.Succeeds? {
        path.content := Some(text + record);
      } else {
        var n := writing.written;
        path.content := Some(text + if n < |record| then record[..n] else record);
        Disable(UNAVAILABLE);
      }
    }

    method Navigate(direction: int, text: string, caret: int) returns (recalled: Option<string>)
      requires Valid() && IsDirection(direction)
      modifies `cursor, `draft, `lastRecalled
      ensures Valid()
      ensures var entries, position := old(Entries()), old(Position());
              if Recalls(entries, position, direction, text, caret) then
                Position() == Moved(entries, position, direction) && recalled == Some(TextAt(entries, Position()))
              else
                Position() == position && recalled == None
    {
      if '\n' in text || (caret != 0 && caret != |text|) {
        return None;
      }
      var entries := Entries();
      if entries == [] {
        return None;
      }
      if cursor.None? {
        if direction > 0 || text != "" {
          return None;
        }
        draft := text;
        cursor := Some(|entries| - 1);
      } else {
        if Some(text) != lastRecalled {
          return None;
        }
        var next := cursor.value + direction;
        if next < 0 {
          next := 0;
        }
        if next >= |entries| {
          ResetNavigation();
          return Some(draft);
        }
        cursor := Some(next);
      }
      lastRecalled := Some(entries[cursor.value]);
      return lastRecalled;
    }
  }
}
