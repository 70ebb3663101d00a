/** The lobby and channel log files: one line per entry, printed and parsed back. */
module ChatLog {
  import opened Base

  datatype Entry = Entry(at: nat, sender: string, text: string)

  const U64_LIMIT: nat := 0x1_0000_0000_0000_0000

  function Digit(d: nat): char
    requires d < 10
  {
    ('0' as int + d) as char
  }

  function Decimal(n: nat): (r: string)
    ensures |r| >= 1
  {
    if n < 10 then [Digit(n)] else Decimal(n / 10) + [Digit(n % 10)]
  }

  predicate IsDigit(c: char) {
    '0' <= c <= '9'
  }

  function DigitsValue(s: string): (r: Option<nat>)
  {
    if s == "" then Some(0)
    else
      var front := DigitsValue(s[..|s| - 1]);
      var c := s[|s| - 1];
      if front.None? || !IsDigit(c) then None else Some(front.value * 10 + (c as int - '0' as int))
  }

  /** `str::parse::<u64>`: an optional plus sign, at least one digit, no overflow. */
  function ParseU64(s: string): Option<nat> {
    var digits := if s != "" && s[0] == '+' then s[1..] else s;
    if digits == "" then None
    else
      var v := DigitsValue(digits);
      if v.None? || v.value >= U64_LIMIT then None else v
  }

  lemma {:induction false} DecimalParses(n: nat)
    ensures DigitsValue(Decimal(n)) == Some(n)
    ensures forall i :: 0 <= i < |Decimal(n)| ==> IsDigit(Decimal(n)[i])
  {
    if n < 10 {
      assert Decimal(n)[..0] == "";
    } else {
      DecimalParses(n / 10);
      assert Decimal(n)[..|Decimal(n)| - 1] == Decimal(n / 10);
    }
  }

  /** `sanitize_text`. */
  function Sanitize(text: string): (r: string)
    ensures |r| == |text|
    ensures forall i :: 0 <= i < |text| ==> r[i] == if text[i] == '\r' || text[i] == '\n' then ' ' else text[i]
  {
    seq(|text|, i requires 0 <= i < |text| => if text[i] == '\r' || text[i] == '\n' then ' ' else text[i])
  }

  function Line(e: Entry): string {
    Decimal(e.at) + "\t" + e.sender + "\t" + Sanitize(e.text)
  }

  function Printed(entries: seq<Entry>): string {
    if entries == [] then "" else Printed(entries[..|entries| - 1]) + Line(entries[|entries| - 1]) + "\n"
  }

  function Sanitized(entries: seq<Entry>): (r: seq<Entry>)
    ensures |r| == |entries|
    ensures forall i :: 0 <= i < |entries| ==> r[i] == entries[i].(text := Sanitize(entries[i].text))
  {
    seq(|entries|, i requires 0 <= i < |entries| => entries[i].(text := Sanitize(entries[i].text)))
  }

  /** Position of the first `c`, or the length. */
  function Find(s: string, c: char): (i: nat)
    ensures i <= |s|
    ensures i < |s| ==> s[i] == c
    ensures forall k :: 0 <= k < i ==> s[k] != c
  {
    if s == "" || s[0] == c then 0 else 1 + Find(s[1..], c)
  }

  /** A line terminator is a newline with the carriage return before it, if there is one. */
  function StripCR(s: string): string {
    if s != "" && s[|s| - 1] == '\r' then s[..|s| - 1] else s
  }

  /** `str::lines`. */
  function Lines(s: string): seq<string>
    decreases |s|
  {
    if s == "" then []
    else
      var i := Find(s, '\n');
      if i == |s| then [s] else [StripCR(s[..i])] + Lines(s[i + 1..])
  }

  /** What follows the timestamp: the sender up to the next tab, and the rest. */
  function ParseFields(at: nat, rest: string): Entry {
    var j := Find(rest, '\t');
    Entry(at, rest[..j], if j == |rest| then "" else rest[j + 1..])
  }

  /** One line, split at its first two tabs; no entry unless the first field is a timestamp. */
  function ParseLine(line: string): Option<Entry> {
    var i := Find(line, '\t');
    var at := ParseU64(line[..i]);
    if at.None? then None
    else if i == |line| then Some(Entry(at.value, "", ""))
    else Some(ParseFields(at.value, line[i + 1..]))
  }

  function ToSeq<T>(o: Option<T>): seq<T> {
    if o.Some? then [o.value] else []
  }

  /** `filter_map`. */
  function FilterMap<A, B>(f: A -> Option<B>, s: seq<A>): seq<B> {
    if s == [] then [] else ToSeq(f(s[0])) + FilterMap(f, s[1..])
  }

  /** Lines that do not parse are skipped. */
  function ParseLines(lines: seq<string>): seq<Entry> {
    FilterMap(ParseLine, lines)
  }

  function Parsed(s: string): seq<Entry> {
    ParseLines(Lines(s))
  }

  predicate PlainSender(sender: string) {
    '\t' !in sender && '\n' !in sender
  }

  lemma {:induction false} FindSkips(a: string, c: char, b: string)
    requires c !in a
    ensures Find(a + [c] + b, c) == |a|
    ensures (a + [c] + b)[..|a|] == a && (a + [c] + b)[|a| + 1..] == b
  {
    var s := a + [c] + b;
    assert s[|a|] == c;
    assert forall k :: 0 <= k < |a| ==> s[k] == a[k];
  }

  lemma {:induction false} DecimalIsTimestamp(n: nat)
    requires n < U64_LIMIT
    ensures '\t' !in Decimal(n) && ParseU64(Decimal(n)) == Some(n)
  {
    DecimalParses(n);
    assert Decimal(n)[0] != '+';
  }

  /** Decimal notation: the last digit is the remainder, the digits before it are the quotient. */
  lemma {:induction false} DecimalDigits(n: nat, d: nat)
    requires d < 10
    ensures Decimal(d) == ["0123456789"[d]]
    ensures n > 0 ==> Decimal(10 * n + d) == Decimal(n) + ["0123456789"[d]]
  {
  }

  /** A printed number reads as a timestamp, with or without a plus sign, exactly when it fits 64 bits; without digits
      there is none. */
  lemma {:induction false} TimestampReads(n: nat)
    ensures ParseU64(Decimal(n)) == if n < 0x1_0000_0000_0000_0000 then Some(n) else None
    ensures ParseU64("+" + Decimal(n)) == ParseU64(Decimal(n))
    ensures ParseU64("") == ParseU64("+") == None
  {
    DecimalParses(n);
    assert Decimal(n)[0] != '+';
    assert ("+" + Decimal(n))[1..] == Decimal(n);
  }

  /** Anything else in it, and it is no timestamp. */
  lemma {:induction false} NoTimestamp(s: string, i: nat)
    requires i < |s| && !('0' <= s[i] <= '9') && (i == 0 ==> s[0] != '+')
    ensures ParseU64(s) == None
  {
    if s[0] == '+' {
      assert s[1..][i - 1] == s[i];
      NoValue(s[1..], i - 1);
    } else {
      NoValue(s, i);
    }
  }

  lemma {:induction false} NoValue(s: string, i: nat)
    requires i < |s| && !IsDigit(s[i])
    ensures DigitsValue(s) == None
  {
    if i < |s| - 1 { NoValue(s[..|s| - 1], i); }
  }

  /** Lines with fewer fields: a lone timestamp, a timestamp and a sender; without a timestamp there is no entry. */
  lemma {:induction false} ShortLines(at: nat, sender: string, first: string, rest: string)
    requires at < U64_LIMIT && '\t' !in sender && '\t' !in first && ParseU64(first) == None
    ensures ParseLine(Decimal(at)) == Some(Entry(at, "", ""))
    ensures ParseLine(Decimal(at) + "\t" + sender) == Some(Entry(at, sender, ""))
    ensures ParseLine(first) == ParseLine(first + "\t" + rest) == None
  {
    DecimalIsTimestamp(at);
    var line := Decimal(at) + "\t" + sender;
    FindSkips(Decimal(at), '\t', sender);
    assert ParseLine(line) == Some(ParseFields(at, sender));
    FindSkips(first, '\t', rest);
    assert Decimal(at)[..|Decimal(at)|] == Decimal(at) && first[..|first|] == first;
    assert sender[..|sender|] == sender;
  }

  /** The end of a text needs no newline. */
  lemma {:induction false} LastLine(s: string)
    requires '\n' !in s && s != ""
    ensures Lines(s) == [s]
  {
  }

  /** A line printed for a plain sender parses back to the entry with its text sanitized; tabs in the text stay. */
  lemma {:induction false} LineParses(e: Entry)
    requires e.at < U64_LIMIT && PlainSender(e.sender)
    ensures ParseLine(Line(e)) == Some(e.(text := Sanitize(e.text)))
  {
    DecimalIsTimestamp(e.at);
    FieldsParse(Decimal(e.at), e.at, e.sender, Sanitize(e.text));
  }

  lemma {:induction false} FieldsParse(d: string, at: nat, sender: string, t: string)
    requires '\t' !in d && ParseU64(d) == Some(at) && '\t' !in sender
    ensures ParseLine(d + "\t" + sender + "\t" + t) == Some(Entry(at, sender, t))
  {
    var rest := sender + "\t" + t;
    var line := d + "\t" + rest;
    assert d + "\t" + sender + "\t" + t == line;
    FindSkips(d, '\t', rest);
    FindSkips(sender, '\t', t);
    assert ParseLine(line) == Some(ParseFields(at, rest));
  }

  lemma {:induction false} LineIsOneLine(e: Entry)
    requires PlainSender(e.sender)
    ensures '\n' !in Line(e) && StripCR(Line(e)) == Line(e)
  {
    DecimalParses(e.at);
    var l, t := Line(e), Sanitize(e.text);
    var head := Decimal(e.at) + "\t" + e.sender + "\t";
    assert l == head + t;
    forall k | 0 <= k < |l| ensures l[k] != '\n' {
      if k >= |head| { assert l[k] == t[k - |head|]; }
    }
    assert l[|l| - 1] == if t == "" then '\t' else t[|t| - 1];
  }

  lemma {:induction false} LinesAppend(s: string, line: string)
    requires s == "" || s[|s| - 1] == '\n'
    requires '\n' !in line
    ensures Lines(s + line + "\n") == Lines(s) + [StripCR(line)]
    decreases |s|
  {
    var all := s + line + "\n";
    if s == "" {
      assert all == line + "\n" + "";
      FindSkips(line, '\n', "");
      assert all[..|line|] == line && all[|line| + 1..] == "";
    } else {
      var i := Find(s, '\n');
      var front, rest := s[..i], s[i + 1..];
      assert all == front + "\n" + (rest + line + "\n");
      FindSkips(front, '\n', rest + line + "\n");
      assert all[..i] == front && all[i + 1..] == rest + line + "\n";
      LinesAppend(rest, line);
    }
  }

  lemma {:induction false} FilterMapAppend<A, B>(f: A -> Option<B>, s: seq<A>, x: A)
    ensures FilterMap(f, s + [x]) == FilterMap(f, s) + ToSeq(f(x))
  {
    var t := s + [x];
    if s == [] {
      assert t[0] == x && t[1..] == [];
    } else {
      FilterMapAppend(f, s[1..], x);
      assert t[0] == s[0] && t[1..] == s[1..] + [x];
      Associative(ToSeq(f(s[0])), FilterMap(f, s[1..]), ToSeq(f(x)));
    }
  }

  lemma {:induction false} Associative<T>(a: seq<T>, b: seq<T>, c: seq<T>)
    ensures a + (b + c) == a + b + c
  {
  }

  lemma {:induction false} FilterMapNext<A, B>(f: A -> Option<B>, got: seq<B>, s: seq<A>, i: nat)
    requires i < |s|
    ensures got + FilterMap(f, s[i..]) ==
      (if f(s[i]).Some? then got + [f(s[i]).value] else got) + FilterMap(f, s[i + 1..])
  {
    SuffixStep(s, i);
  }

  lemma {:induction false} SanitizedSnoc(front: seq<Entry>, e: Entry)
    ensures Sanitized(front + [e]) == Sanitized(front) + [e.(text := Sanitize(e.text))]
  {
  }

  lemma {:induction false} PrintedParses(entries: seq<Entry>)
    requires forall i :: 0 <= i < |entries| ==> entries[i].at < U64_LIMIT && PlainSender(entries[i].sender)
    ensures Parsed(Printed(entries)) == Sanitized(entries)
    ensures Printed(entries) == "" || Printed(entries)[|Printed(entries)| - 1] == '\n'
  {
    if entries != [] {
      var n := |entries| - 1;
      var front, e := entries[..n], entries[n];
      PrintedParses(front);
      LineIsOneLine(e);
      LineParses(e);
      LinesAppend(Printed(front), Line(e));
      FilterMapAppend(ParseLine, Lines(Printed(front)), Line(e));
      SanitizedSnoc(front, e);
      LastSplit(entries);
    }
  }

  lemma {:induction false} LinesHaveNoNewline(s: string)
    ensures forall k :: 0 <= k < |Lines(s)| ==> '\n' !in Lines(s)[k]
    decreases |s|
  {
    if s != "" {
      var i := Find(s, '\n');
      if i < |s| { LinesHaveNoNewline(s[i + 1..]); }
    }
  }

  lemma {:induction false} ParsedSenderIsPlain(line: string)
    requires '\n' !in line && ParseLine(line).Some?
    ensures PlainSender(ParseLine(line).value.sender)
  {
    var i := Find(line, '\t');
    if i < |line| {
      var rest := line[i + 1..];
      var sender := rest[..Find(rest, '\t')];
      assert forall k :: 0 <= k < |sender| ==> sender[k] == line[i + 1 + k];
    }
  }

  /** Everything kept comes from some element. */
  lemma {:induction false} FilterMapFrom<A, B>(f: A -> Option<B>, s: seq<A>, y: B)
    requires y in FilterMap(f, s)
    ensures exists i :: 0 <= i < |s| && f(s[i]) == Some(y)
  {
    if f(s[0]) != Some(y) {
      FilterMapFrom(f, s[1..], y);
      var i :| 0 <= i < |s[1..]| && f(s[1..][i]) == Some(y);
      assert f(s[i + 1]) == Some(y);
    }
  }

  /** Whatever the file holds, no parsed sender contains a tab or a newline. */
  lemma {:induction false} ParsedSendersArePlain(lines: seq<string>, k: nat)
    requires forall i :: 0 <= i < |lines| ==> '\n' !in lines[i]
    requires k < |ParseLines(lines)|
    ensures PlainSender(ParseLines(lines)[k].sender)
  {
    var e := ParseLines(lines)[k];
    assert e in ParseLines(lines);
    FilterMapFrom(ParseLine, lines, e);
    var i :| 0 <= i < |lines| && ParseLine(lines[i]) == Some(e);
    ParsedSenderIsPlain(lines[i]);
  }

  /** The log reads back as exactly the appended entries, in order, with sanitized text, if and only if every
      sender was free of tabs and newlines. */
  lemma {:induction false} LogRoundTrip(entries: seq<Entry>)
    requires forall i :: 0 <= i < |entries| ==> entries[i].at < U64_LIMIT
    ensures Parsed(Printed(entries)) == Sanitized(entries) <==> forall i :: 0 <= i < |entries| ==>
      PlainSender(entries[i].sender)
  {
    if forall i :: 0 <= i < |entries| ==> PlainSender(entries[i].sender) {
      PrintedParses(entries);
    }
    if Parsed(Printed(entries)) == Sanitized(entries) {
      LinesHaveNoNewline(Printed(entries));
      forall i | 0 <= i < |entries| ensures PlainSender(entries[i].sender) {
        ParsedSendersArePlain(Lines(Printed(entries)), i);
        assert Sanitized(entries)[i].sender == entries[i].sender;
      }
    }
  }

  class LogFile {
    var text: string
    ghost var appended: seq<Entry>

    ghost predicate Valid()
      reads this
    {
      text == Printed(appended) && forall i :: 0 <= i < |appended| ==> appended[i].at < U64_LIMIT
    }

    constructor ()
      ensures Valid() && appended == []
    {
      text := "";
      appended := [];
    }

    method AppendLog(now: nat, sender: string, message: string)
      requires Valid() && now < U64_LIMIT
      modifies this
      ensures Valid() && appended == old(appended) + [Entry(now, sender, message)]
      ensures text == old(text) + Decimal(now) + "\t" + sender + "\t" + Sanitize(message) + "\n"
    {
      appended := appended + [Entry(now, sender, message)];
      assert appended[..|appended| - 1] == old(appended);
      text := text + (Decimal(now) + "\t" + sender + "\t" + Sanitize(message)) + "\n";
      assert text == old(text) + Decimal(now) + "\t" + sender + "\t" + Sanitize(message) + "\n";
    }

    method ReadLog() returns (entries: seq<Entry>)
      requires Valid()
      ensures entries == Parsed(text)
      ensures entries == Sanitized(appended) <==> forall i :: 0 <= i < |appended| ==> PlainSender(appended[i].sender)
    {
      var lines := Lines(text);
      entries := [];
      for i := 0 to |lines|
        invariant entries + ParseLines(lines[i..]) == ParseLines(lines)
      {
        FilterMapNext(ParseLine, entries, lines, i);
        var e := ParseLine(lines[i]);
        if e.Some? {
          entries := entries + [e.value];
        }
      }
      assert lines[|lines|..] == [] && entries + [] == entries;
      LogRoundTrip(appended);
    }
  }
}
