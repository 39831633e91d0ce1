/**
  The spreadsheet normaliser: `parseCSV` turns the text of a published
  sheet into one `UserData` record per data line, looking fields up through
  ordered lists of header aliases and defaulting or clamping what it reads.
 */
module Sheets {
  import opened Wrappers
  import opened JsString
  import opened Sequences

  /** One scheduled day as read from the sheet. */
  datatype UserData = UserData(
    date: string,
    earlyMeeting: bool,
    gasLevel: int,
    budgetMode: bool,
    urgency: int,
    origin: string,
    destination: string)

  // ---------------------------------------------------------------------
  // Lines

  /** Drops one carriage return at the end of a piece: the `\r?` of `\r?\n`. */
  function DropCarriageReturn(s: string): string {
    if s != [] && s[|s| - 1] == '\r' then s[..|s| - 1] else s
  }

  /** The split into lines: at every line feed, where a carriage return
      directly before a line feed belongs to the separator. */
  function SplitLines(text: string): (lines: seq<string>)
    ensures |lines| == multiset(text)['\n'] + 1
  {
    SplitCount(text, '\n');
    DropLineEnds(Split(text, '\n'))
  }

  /** Every piece but the last loses its carriage return at the end. */
  function DropLineEnds(parts: seq<string>): (lines: seq<string>)
    ensures |lines| == |parts|
  {
    seq(|parts|, k requires 0 <= k < |parts| =>
      if k < |parts| - 1 then DropCarriageReturn(parts[k]) else parts[k])
  }

  /** Text without carriage returns is split exactly at its line feeds, so
      joining the lines with line feeds gives the text back. */
  lemma SplitLinesRoundTrip(text: string)
    requires '\r' !in text
    ensures Join(SplitLines(text), '\n') == text
  {
    var parts := Split(text, '\n');
    SplitKeepsContent(text, '\n');
    forall k | 0 <= k < |parts|
      ensures DropCarriageReturn(parts[k]) == parts[k]
    {
      assert '\r' !in multiset(parts[k]);
      assert parts[k] == [] || parts[k][|parts[k]| - 1] in multiset(parts[k]);
    }
    assert SplitLines(text) == parts;
    JoinSplit(text, '\n');
  }

  /** Text whose every carriage return ends a line (CRLF, LF or a mix of
      both) splits into the lines of the text with its carriage returns
      removed. */
  lemma {:induction false} SplitLinesCrlf(text: string)
    requires forall k :: 0 <= k < |text| && text[k] == '\r' ==> k + 1 < |text| && text[k + 1] == '\n'
    ensures SplitLines(text) == Split(RemoveAll(text, '\r'), '\n')
    decreases |text|
  {
    if '\n' !in text {
      forall j | 0 <= j < |text| ensures text[j] != '\r' {
        if j + 1 < |text| {
          assert text[j + 1] in text;
        }
      }
      RemoveAllAbsent(text, '\r');
      assert SplitLines(text) == [text];
    } else {
      var k := IndexOf(text, '\n');
      var x, y := text[..k], text[k + 1..];
      assert text == x + ['\n'] + y;
      forall j | 0 <= j < |y| && y[j] == '\r'
        ensures j + 1 < |y| && y[j + 1] == '\n'
      {
        assert text[k + 1 + j] == y[j];
      }
      SplitLinesCrlf(y);
      CarriageReturnBeforeFeed(text, k);
      RemoveAllAroundFeed(x, y);
      RemoveAllSpec(x, '\r');
      assert multiset(RemoveAll(x, '\r'))['\n'] == 0;
      SplitAfterFirst(RemoveAll(x, '\r'), '\n', RemoveAll(y, '\r'));
      SplitLinesAfterFirst(x, y);
    }
  }

  /** Removing carriage returns around one line feed. */
  lemma RemoveAllAroundFeed(x: string, y: string)
    ensures RemoveAll(x + ['\n'] + y, '\r') == RemoveAll(x, '\r') + ['\n'] + RemoveAll(y, '\r')
  {
    assert x + ['\n'] + y == x + (['\n'] + y);
    RemoveAllConcat(x, ['\n'] + y, '\r');
    RemoveAllConcat(['\n'], y, '\r');
    assert RemoveAll(['\n'], '\r') == ['\n'];
  }

  /** The first line of a text is its part before the first line feed,
      without a carriage return at its end; the other lines are the lines of
      the rest. */
  lemma SplitLinesAfterFirst(x: string, y: string)
    requires '\n' !in x
    ensures SplitLines(x + ['\n'] + y) == [DropCarriageReturn(x)] + SplitLines(y)
  {
    SplitAfterFirst(x, '\n', y);
    DropLineEndsCons(x, Split(y, '\n'));
  }

  /** Dropping line ends is done piece by piece from the front. */
  lemma DropLineEndsCons(x: string, rest: seq<string>)
    requires rest != []
    ensures DropLineEnds([x] + rest) == [DropCarriageReturn(x)] + DropLineEnds(rest)
  {
    var lines := DropLineEnds([x] + rest);
    forall i | 1 <= i < |lines| ensures lines[i] == DropLineEnds(rest)[i - 1] {
      assert ([x] + rest)[i] == rest[i - 1];
    }
  }

  /** Before the first line feed at `k`, a carriage return can only sit
      directly in front of it. */
  lemma CarriageReturnBeforeFeed(text: string, k: nat)
    requires forall j :: 0 <= j < |text| && text[j] == '\r' ==> j + 1 < |text| && text[j + 1] == '\n'
    requires k < |text| && text[k] == '\n' && '\n' !in text[..k]
    ensures DropCarriageReturn(text[..k]) == RemoveAll(text[..k], '\r')
  {
    var x := text[..k];
    if x != [] && x[|x| - 1] == '\r' {
      var init := x[..|x| - 1];
      forall j | 0 <= j < |init| ensures init[j] != '\r' {
        assert text[j + 1] == x[j + 1];
      }
      RemoveAllAbsent(init, '\r');
      assert x == init + ['\r'];
      RemoveAllSnoc(init, '\r', '\r');
    } else {
      forall j | 0 <= j < |x| ensures x[j] != '\r' {
        assert text[j] == x[j];
        if j + 1 < |x| {
          assert text[j + 1] == x[j + 1];
        }
      }
      RemoveAllAbsent(x, '\r');
    }
  }

  lemma {:induction false} SplitKeepsContent(s: string, sep: char)
    ensures forall k :: 0 <= k < |Split(s, sep)| ==> multiset(Split(s, sep)[k]) <= multiset(s)
    decreases |s|
  {
    if sep in s {
      var k := IndexOf(s, sep);
      SplitKeepsContent(s[k + 1..], sep);
      assert s == s[..k] + [sep] + s[k + 1..];
      assert multiset(s) == multiset(s[..k]) + multiset([sep]) + multiset(s[k + 1..]);
    }
  }

  /** The lines that are not blank, in their order. */
  function NonBlank(lines: seq<string>): (r: seq<string>)
    ensures |r| <= |lines|
    decreases |lines|
  {
    if lines == [] then []
    else if Trim(lines[0]) != [] then [lines[0]] + NonBlank(lines[1..])
    else NonBlank(lines[1..])
  }

  /** The filter keeps exactly the lines that are not blank. */
  lemma {:induction false} NonBlankMembers(lines: seq<string>)
    ensures forall x :: x in NonBlank(lines) <==> x in lines && Trim(x) != []
    decreases |lines|
  {
    if lines != [] {
      NonBlankMembers(lines[1..]);
      assert forall x :: x in lines <==> x == lines[0] || x in lines[1..];
    }
  }

  /** A single line is kept exactly when it is not blank. */
  lemma NonBlankOne(x: string)
    ensures NonBlank([x]) == if Trim(x) != [] then [x] else []
  {
    assert [x][1..] == [];
  }

  /** Filtering a concatenation filters each part: the kept lines stay in
      their order, each as often as it occurs. */
  lemma {:induction false} NonBlankConcat(a: seq<string>, b: seq<string>)
    ensures NonBlank(a + b) == NonBlank(a) + NonBlank(b)
    decreases |a|
  {
    if a == [] {
      assert a + b == b;
    } else {
      assert (a + b)[1..] == a[1..] + b;
      NonBlankConcat(a[1..], b);
    }
  }

  /** The lines `parseCSV` works on. */
  function DataLines(text: string): seq<string> {
    NonBlank(SplitLines(text))
  }

  // ---------------------------------------------------------------------
  // Header row

  /** A header name trimmed, lower-cased and stripped of every quote. */
  function NormalizeHeader(h: string): (r: string)
    ensures '"' !in r
    ensures NoUpper(r)
  {
    var lower := ToLower(Trim(h));
    RemoveAllKeepsNoUpper(lower, '"');
    RemoveAll(lower, '"')
  }

  /** The header row, split at every comma, quoted or not. */
  function Headers(line: string): seq<string> {
    var parts := Split(line, ',');
    seq(|parts|, k requires 0 <= k < |parts| => NormalizeHeader(parts[k]))
  }

  /** One header per comma plus one, each normalised: no quote, no upper-case
      letter. */
  lemma HeadersShape(line: string)
    ensures |Headers(line)| == multiset(line)[','] + 1
    ensures forall k :: 0 <= k < |Headers(line)| ==>
              Headers(line)[k] == NormalizeHeader(Split(line, ',')[k]) && '"' !in Headers(line)[k]
  {
    SplitCount(line, ',');
  }

  // ---------------------------------------------------------------------
  // Data lines (`parseLine`)

  /** The quote state after reading the first `k` characters of `line`:
      each `"` toggles it. */
  function InQuotesAt(line: string, k: nat): bool
    requires k <= |line|
  {
    if k == 0 then false else InQuotesAt(line, k - 1) != (line[k - 1] == '"')
  }

  function QuoteCount(s: string): nat {
    multiset(s)['"']
  }

  /** The quote state is on exactly when an odd number of `"` have been read. */
  lemma {:induction false} InQuotesParity(line: string, k: nat)
    requires k <= |line|
    ensures InQuotesAt(line, k) <==> QuoteCount(line[..k]) % 2 == 1
  {
    if k > 0 {
      InQuotesParity(line, k - 1);
      assert line[..k] == line[..k - 1] + [line[k - 1]];
      assert multiset(line[..k]) == multiset(line[..k - 1]) + multiset([line[k - 1]]);
    }
  }

  /** Position `k` holds a comma read while not inside quotes. */
  predicate IsSeparator(line: string, k: int) {
    0 <= k < |line| && line[k] == ',' && !InQuotesAt(line, k)
  }

  /** The first separator at or after `from`. */
  function NextSeparator(line: string, from: nat): (r: Option<nat>)
    requires from <= |line|
    ensures r.Some? ==> from <= r.value < |line|
    decreases |line| - from
  {
    if from == |line| then None
    else if IsSeparator(line, from) then Some(from)
    else NextSeparator(line, from + 1)
  }

  /** `NextSeparator` finds the first separator at or after `from`, and
      finds none exactly when there is none. */
  lemma {:induction false} NextSeparatorSpec(line: string, from: nat)
    requires from <= |line|
    ensures NextSeparator(line, from).None? ==> forall k :: from <= k < |line| ==> !IsSeparator(line, k)
    ensures NextSeparator(line, from).Some? ==>
              IsSeparator(line, NextSeparator(line, from).value) &&
              forall k :: from <= k < NextSeparator(line, from).value ==> !IsSeparator(line, k)
    decreases |line| - from
  {
    if from < |line| && !IsSeparator(line, from) {
      NextSeparatorSpec(line, from + 1);
    }
  }

  /** Number of separators at or after `from`. */
  function SeparatorsFrom(line: string, from: nat): nat
    requires from <= |line|
    decreases |line| - from
  {
    if from == |line| then 0
    else (if IsSeparator(line, from) then 1 else 0) + SeparatorsFrom(line, from + 1)
  }

  /** The removal of the quote anchored at the start and of the one anchored
      at the end: text without quotes is left alone, a quoted text loses
      exactly its enclosing quotes, and nothing else is ever removed. */
  function StripEdgeQuotes(s: string): (r: string)
    ensures '"' !in s ==> r == s
    ensures |s| >= 2 && s[0] == '"' && s[|s| - 1] == '"' ==> r == s[1..|s| - 1]
    ensures |s| - 2 <= |r| <= |s|
    ensures s != [] && s[0] != '"' ==> r == s[..|r|]
    ensures s != [] && s[|s| - 1] != '"' ==> r == s[|s| - |r|..]
    ensures s != [] && s[0] == '"' && s[|s| - 1] != '"' ==> r == s[1..]
    ensures s != [] && s[0] != '"' && s[|s| - 1] == '"' ==> r == s[..|s| - 1]
    ensures s != [] && s[0] != '"' && s[|s| - 1] != '"' ==> r == s
    ensures s == ['"'] ==> r == []
  {
    var a := if s != [] && s[0] == '"' then s[1..] else s;
    if a != [] && a[|a| - 1] == '"' then a[..|a| - 1] else a
  }

  /** The replacement of every doubled quote by a single one, scanning left
      to right: it never lengthens the text and keeps every other character
      as often as it occurs. */
  function Unescape(s: string): (r: string)
    ensures |r| <= |s|
    ensures forall c :: c != '"' ==> multiset(r)[c] == multiset(s)[c]
    decreases |s|
  {
    if |s| >= 2 && s[0] == '"' && s[1] == '"' then
      assert s == ['"', '"'] + s[2..];
      ['"'] + Unescape(s[2..])
    else if s == [] then []
    else
      assert s == [s[0]] + s[1..];
      [s[0]] + Unescape(s[1..])
  }

  /** The clean-up applied to every field before it is pushed. */
  function CleanField(s: string): string {
    Unescape(StripEdgeQuotes(Trim(s)))
  }

  lemma {:induction false} UnescapeWithoutQuotes(s: string)
    requires '"' !in s
    ensures Unescape(s) == s
    decreases |s|
  {
    if s != [] {
      assert s[0] != '"';
      assert '"' !in s[1..];
      UnescapeWithoutQuotes(s[1..]);
    }
  }

  /** Every quote doubled, the way a CSV writer escapes a quote. */
  function Escape(t: string): string
    decreases |t|
  {
    if t == [] then []
    else (if t[0] == '"' then ['"', '"'] else [t[0]]) + Escape(t[1..])
  }

  /** The replacement of doubled quotes undoes the escaping of quotes: each
      `""` becomes one `"` and everything else is kept. */
  lemma {:induction false} UnescapeEscape(t: string)
    ensures Unescape(Escape(t)) == t
    decreases |t|
  {
    if t != [] {
      UnescapeEscape(t[1..]);
      var e := Escape(t);
      if t[0] == '"' {
        assert e[2..] == Escape(t[1..]);
      } else {
        assert e[0] == t[0];
        assert e[1..] == Escape(t[1..]);
      }
      assert t == [t[0]] + t[1..];
    }
  }

  /** On text without quotes, the quote clean-ups do nothing: a field is
      just trimmed. */
  lemma CleanFieldWithoutQuotes(s: string)
    requires '"' !in s
    ensures CleanField(s) == Trim(s)
    ensures '"' !in CleanField(s)
  {
    var t := Trim(s);
    TrimSpec(s);
    assert '"' !in multiset(t);
    assert t == [] || (t[0] in multiset(t) && t[|t| - 1] in multiset(t));
    assert StripEdgeQuotes(t) == t;
    UnescapeWithoutQuotes(t);
  }

  /** The characters of `line` in `[from, until)` other than `"`: the text a
      field accumulates, since a quote only toggles the quote state. */
  function Unquoted(line: string, from: nat, until: nat): (r: string)
    requires from <= until <= |line|
    ensures '"' !in r
    decreases until - from
  {
    if until == from then []
    else Unquoted(line, from, until - 1) + (if line[until - 1] == '"' then [] else [line[until - 1]])
  }

  /** The accumulated text is the slice with every quote removed. */
  lemma {:induction false} UnquotedIsRemoveAll(line: string, from: nat, until: nat)
    requires from <= until <= |line|
    ensures Unquoted(line, from, until) == RemoveAll(line[from..until], '"')
    decreases until - from
  {
    if until > from {
      var prefix, x := line[from..until - 1], line[until - 1];
      calc {
        RemoveAll(line[from..until], '"');
        { assert line[from..until] == prefix + [x]; }
        RemoveAll(prefix + [x], '"');
        { RemoveAllSnoc(prefix, x, '"'); }
        RemoveAll(prefix, '"') + (if x == '"' then [] else [x]);
        { UnquotedIsRemoveAll(line, from, until - 1); }
        Unquoted(line, from, until - 1) + (if x == '"' then [] else [x]);
      }
    }
  }

  /** The raw fields of `line` from position `from` on: the text between
      consecutive separators with every quote character dropped. */
  function RawFieldsFrom(line: string, from: nat): seq<string>
    requires from <= |line|
    decreases |line| - from
  {
    match NextSeparator(line, from)
    case None => [Unquoted(line, from, |line|)]
    case Some(k) => [Unquoted(line, from, k)] + RawFieldsFrom(line, k + 1)
  }

  function RawFields(line: string): seq<string> {
    RawFieldsFrom(line, 0)
  }

  /** Every raw field cleaned up, in order. */
  function CleanAll(raws: seq<string>): (r: seq<string>)
    ensures |r| == |raws|
    decreases |raws|
  {
    if raws == [] then [] else CleanAll(raws[..|raws| - 1]) + [CleanField(raws[|raws| - 1])]
  }

  lemma {:induction false} CleanAllAt(raws: seq<string>, j: nat)
    requires j < |raws|
    ensures CleanAll(raws)[j] == CleanField(raws[j])
    decreases |raws|
  {
    if j < |raws| - 1 {
      CleanAllAt(raws[..|raws| - 1], j);
    }
  }

  /** What `parseLine` returns: the raw fields, each cleaned up. */
  function Fields(line: string): seq<string> {
    CleanAll(RawFields(line))
  }

  lemma {:induction false} SeparatorsSkip(line: string, from: nat, until: nat)
    requires from <= until <= |line|
    requires forall k :: from <= k < until ==> !IsSeparator(line, k)
    ensures SeparatorsFrom(line, from) == SeparatorsFrom(line, until)
    decreases until - from
  {
    if from < until {
      SeparatorsSkip(line, from + 1, until);
    }
  }

  lemma {:induction false} RawFieldsCount(line: string, from: nat)
    requires from <= |line|
    ensures |RawFieldsFrom(line, from)| == 1 + SeparatorsFrom(line, from)
    decreases |line| - from
  {
    var next := NextSeparator(line, from);
    NextSeparatorSpec(line, from);
    if next.None? {
      SeparatorsSkip(line, from, |line|);
    } else {
      var k := next.value;
      SeparatorsSkip(line, from, k);
      RawFieldsCount(line, k + 1);
      assert SeparatorsFrom(line, k) == 1 + SeparatorsFrom(line, k + 1);
    }
  }

  lemma {:induction false} RawFieldsWithoutQuotes(line: string, from: nat)
    requires from <= |line|
    ensures forall j :: 0 <= j < |RawFieldsFrom(line, from)| ==> '"' !in RawFieldsFrom(line, from)[j]
    decreases |line| - from
  {
    var next := NextSeparator(line, from);
    if next.Some? {
      RawFieldsWithoutQuotes(line, next.value + 1);
      assert RawFieldsFrom(line, from) == [Unquoted(line, from, next.value)] + RawFieldsFrom(line, next.value + 1);
    }
  }

  /** `parseLine` yields one field more than there are commas read outside
      quotes; a `"` only toggles the quote state and never reaches a field, so
      every field is its trimmed raw text and holds no quote. */
  lemma FieldsShape(line: string)
    ensures |Fields(line)| == 1 + SeparatorsFrom(line, 0)
    ensures forall j :: 0 <= j < |Fields(line)| ==>
              Fields(line)[j] == Trim(RawFields(line)[j]) && '"' !in Fields(line)[j]
  {
    RawFieldsCount(line, 0);
    RawFieldsWithoutQuotes(line, 0);
    forall j | 0 <= j < |Fields(line)|
      ensures Fields(line)[j] == Trim(RawFields(line)[j]) && '"' !in Fields(line)[j]
    {
      CleanAllAt(RawFields(line), j);
      CleanFieldWithoutQuotes(RawFields(line)[j]);
    }
  }

  /** A position that is not a separator does not change where the next one is. */
  lemma NextSeparatorSkip(line: string, i: nat)
    requires i < |line| && !IsSeparator(line, i)
    ensures NextSeparator(line, i) == NextSeparator(line, i + 1)
  {
  }

  /** Reading one more character other than `"` adds it to the field text. */
  lemma UnquotedStep(line: string, start: nat, i: nat)
    requires start <= i < |line|
    ensures Unquoted(line, start, i + 1) ==
              Unquoted(line, start, i) + (if line[i] == '"' then [] else [line[i]])
  {
  }

  /** At a separator the current field is complete: the fields read so far,
      this one and those after it make up all raw fields. */
  lemma RawFieldsAtSeparator(line: string, start: nat, i: nat, raws: seq<string>)
    requires start <= i < |line| && IsSeparator(line, i)
    requires NextSeparator(line, start) == NextSeparator(line, i)
    requires raws + RawFieldsFrom(line, start) == RawFields(line)
    ensures (raws + [Unquoted(line, start, i)]) + RawFieldsFrom(line, i + 1) == RawFields(line)
  {
    assert NextSeparator(line, start) == Some(i);
    var after := RawFieldsFrom(line, i + 1);
    assert RawFieldsFrom(line, start) == [Unquoted(line, start, i)] + after;
    assert (raws + [Unquoted(line, start, i)]) + after == raws + ([Unquoted(line, start, i)] + after);
  }

  /** The last raw field runs to the end of the line. */
  lemma RawFieldsAtEnd(line: string, start: nat, raws: seq<string>)
    requires start <= |line| && NextSeparator(line, start) == NextSeparator(line, |line|)
    requires raws + RawFieldsFrom(line, start) == RawFields(line)
    ensures raws + [Unquoted(line, start, |line|)] == RawFields(line)
  {
    assert RawFieldsFrom(line, start) == [Unquoted(line, start, |line|)];
  }

  /** Pushes the cleaned-up current field onto the fields read so far. */
  method PushField(result: seq<string>, ghost raws: seq<string>, current: string)
    returns (r: seq<string>)
    requires result == CleanAll(raws)
    ensures r == CleanAll(raws + [current])
  {
    r := result + [CleanField(current)];
    assert (raws + [current])[..|raws|] == raws;
  }

  /** `parseLine`: a character loop that toggles the quote state on `"`,
      ends a field at a comma read outside quotes and otherwise appends the
      character to the current field. */
  method ParseLine(line: string) returns (result: seq<string>)
    ensures result == Fields(line)
    ensures |result| == 1 + SeparatorsFrom(line, 0)
    ensures forall j :: 0 <= j < |result| ==> '"' !in result[j]
  {
    result := [];
    var current := "";
    var inQuotes := false;
    ghost var raws: seq<string> := [];
    ghost var start := 0;
    var i := 0;
    while i < |line|
      invariant 0 <= start <= i <= |line|
      invariant inQuotes == InQuotesAt(line, i)
      invariant current == Unquoted(line, start, i)
      invariant NextSeparator(line, start) == NextSeparator(line, i)
      invariant result == CleanAll(raws)
      invariant raws + RawFieldsFrom(line, start) == RawFields(line)
    {
      var c := line[i];
      UnquotedStep(line, start, i);
      if c == '"' {
        NextSeparatorSkip(line, i);
        inQuotes := !inQuotes;
      } else if c == ',' && !inQuotes {
        RawFieldsAtSeparator(line, start, i, raws);
        result := PushField(result, raws, current);
        raws := raws + [current];
        current := "";
        start := i + 1;
      } else {
        NextSeparatorSkip(line, i);
        current := current + [c];
      }
      i := i + 1;
    }
    RawFieldsAtEnd(line, start, raws);
    result := PushField(result, raws, current);
    raws := raws + [current];
    FieldsShape(line);
  }

  // ---------------------------------------------------------------------
  // One record per data line

  /** The cell at a position of a line; a missing cell reads as the empty string. */
  function Cell(values: seq<string>, j: nat): string {
    if j < |values| then values[j] else ""
  }

  /** The `rawData` dictionary after the first `j` headers have been
      stored: each assignment overwrites what an earlier equal header left. */
  function RawRowUpTo(headers: seq<string>, values: seq<string>, j: nat): map<string, string>
    requires j <= |headers|
    decreases j
  {
    if j == 0 then map[]
    else RawRowUpTo(headers, values, j - 1)[headers[j - 1] := Cell(values, j - 1)]
  }

  /** The `rawData` dictionary of one data line. */
  function RawRow(headers: seq<string>, values: seq<string>): map<string, string> {
    RawRowUpTo(headers, values, |headers|)
  }

  /** Reference reading of `rawData`: every header maps to the cell under
      its last occurrence. */
  function LastCellMap(hs: seq<string>, values: seq<string>): map<string, string> {
    map h | h in hs :: Cell(values, LastIndex(hs, h))
  }

  lemma LastCellMapSnoc(hs: seq<string>, h: string, values: seq<string>)
    ensures LastCellMap(hs + [h], values) == LastCellMap(hs, values)[h := Cell(values, |hs|)]
  {
    var hs' := hs + [h];
    var m1 := LastCellMap(hs', values);
    var m2 := LastCellMap(hs, values)[h := Cell(values, |hs|)];
    assert hs'[..|hs|] == hs;
    assert forall x :: x in hs' <==> x in hs || x == h;
    assert m1.Keys == m2.Keys;
    forall x | x in m1.Keys ensures m1[x] == m2[x] {
      if x != h {
        assert LastIndex(hs', x) == LastIndex(hs, x);
      }
    }
  }

  lemma {:induction false} RawRowUpToIsLastCellMap(headers: seq<string>, values: seq<string>, j: nat)
    requires j <= |headers|
    ensures RawRowUpTo(headers, values, j) == LastCellMap(headers[..j], values)
    decreases j
  {
    if j == 0 {
      assert LastCellMap([], values) == map[];
      assert headers[..0] == [];
    } else {
      var init := headers[..j - 1];
      RawRowUpToIsLastCellMap(headers, values, j - 1);
      assert headers[..j] == init + [headers[j - 1]];
      LastCellMapSnoc(init, headers[j - 1], values);
      assert |init| == j - 1;
    }
  }

  /** A later duplicate header overwrites an earlier one: the keys are the
      headers, and each holds the cell under its last occurrence. */
  lemma RawRowLastWins(headers: seq<string>, values: seq<string>)
    ensures RawRow(headers, values).Keys == set h | h in headers
    ensures forall j :: 0 <= j < |headers| && headers[j] !in headers[j + 1..] ==>
              RawRow(headers, values)[headers[j]] == Cell(values, j)
  {
    RawRowUpToIsLastCellMap(headers, values, |headers|);
    assert headers[..|headers|] == headers;
    forall j | 0 <= j < |headers| && headers[j] !in headers[j + 1..]
      ensures LastIndex(headers, headers[j]) == j
    {
    }
  }

  /** The loop over the headers that stores each header's cell, or "" when
      the line has no cell at that position, in the row dictionary. */
  method BuildRawRow(headers: seq<string>, values: seq<string>) returns (raw: map<string, string>)
    ensures raw == RawRow(headers, values)
  {
    raw := map[];
    var j := 0;
    while j < |headers|
      invariant 0 <= j <= |headers|
      invariant raw == RawRowUpTo(headers, values, j)
    {
      raw := raw[headers[j] := Cell(values, j)];
      j := j + 1;
    }
  }

  /** `getVal`: the value under the first alias that is a header, in alias
      order; a present header with an empty cell yields "" rather than falling
      through to the next alias. */
  function GetVal(raw: map<string, string>, keys: seq<string>): (r: Option<string>)
    ensures r.None? <==> forall k :: 0 <= k < |keys| ==> keys[k] !in raw
    ensures r.Some? ==> exists i :: 0 <= i < |keys| && keys[i] in raw && r.value == raw[keys[i]]
                                    && forall j :: 0 <= j < i ==> keys[j] !in raw
    decreases |keys|
  {
    if keys == [] then None
    else if keys[0] in raw then Some(raw[keys[0]])
    else
      var r := GetVal(raw, keys[1..]);
      assert forall k :: 1 <= k < |keys| ==> keys[k] == keys[1..][k - 1];
      assert r.Some? ==> exists i :: 1 <= i < |keys| && keys[i] in raw && r.value == raw[keys[i]]
                                    && forall j :: 0 <= j < i ==> keys[j] !in raw by {
        if r.Some? {
          var i :| 0 <= i < |keys[1..]| && keys[1..][i] in raw && r.value == raw[keys[1..][i]]
                   && forall j :: 0 <= j < i ==> keys[1..][j] !in raw;
          assert keys[i + 1] == keys[1..][i];
        }
      }
      r
  }

  const DateKeys: seq<string> := ["date", "day"]
  const EarlyMeetingKeys: seq<string> := ["early meeting", "early_meeting", "meeting", "early"]
  const GasKeys: seq<string> := ["gas level", "gas_level", "gas"]
  const BudgetKeys: seq<string> := ["budget mode", "budget_mode", "budget"]
  const UrgencyKeys: seq<string> := ["urgency", "urgent", "time to leave"]
  const OriginKeys: seq<string> := ["origin", "start", "from"]
  const DestinationKeys: seq<string> := ["destination", "end", "to"]

  /** JavaScript's `v || d` on a `string | undefined`: both undefined and ""
      are falsy. */
  function OrElse(v: Option<string>, d: string): (r: string)
    ensures v.Some? && v.value != "" ==> r == v.value
    ensures v.None? || v.value == "" ==> r == d
    ensures d != "" ==> r != ""
  {
    if v.Some? && v.value != "" then v.value else d
  }

  /** `parseNumber`: a missing or empty value, or one with no leading integer,
      gives the fallback; a parsed integer is clamped to [min, max]. */
  function ParseNumber(value: Option<string>, min: int, max: int, fallback: int): (r: int)
    ensures value.None? || value.value == "" ==> r == fallback
    ensures value.Some? && ParseInt(value.value).None? ==> r == fallback
    ensures value.Some? && value.value != "" && ParseInt(value.value).Some? && min <= max ==>
              min <= r <= max &&
              (min <= ParseInt(value.value).value <= max ==> r == ParseInt(value.value).value) &&
              (ParseInt(value.value).value < min ==> r == min) &&
              (ParseInt(value.value).value > max ==> r == max)
    ensures min <= fallback <= max ==> min <= r <= max
  {
    if value.None? || value.value == "" then fallback
    else
      match ParseInt(value.value)
      case None => fallback
      case Some(parsed) =>
        var atLeast := if parsed > min then parsed else min;   // Math.max(parsed, min)
        if atLeast < max then atLeast else max                 // Math.min(..., max)
  }

  /** A numeral in range reads back as itself; one above the range gives the
      upper bound. */
  lemma ParseNumberOfNumeral(n: nat, min: int, max: int, fallback: int)
    requires min <= max
    ensures min <= n <= max ==> ParseNumber(Some(NatToString(n)), min, max, fallback) == n
    ensures n > max ==> ParseNumber(Some(NatToString(n)), min, max, fallback) == max
  {
    assert NatToString(n) + [] == NatToString(n);
    ParseIntOfNumeral(n, []);
  }

  /** A negative numeral below the range gives the lower bound. */
  lemma ParseNumberOfNegative(n: nat, min: int, max: int, fallback: int)
    requires min <= max && -(n as int) < min
    ensures ParseNumber(Some("-" + NatToString(n)), min, max, fallback) == min
  {
    ParseIntOfNegativeNumeral(n);
  }

  /** `a` and `b` are equal once `a` is lower-cased. */
  predicate EqualsIgnoringCase(a: string, b: string) {
    |a| == |b| && forall k :: 0 <= k < |a| ==> LowerChar(a[k]) == b[k]
  }

  /** `parseBoolean`: true exactly for "true", "yes" or "1" in any letter
      case; undefined and "" are false. */
  function ParseBoolean(value: Option<string>): (r: bool)
    ensures r <==> value.Some? &&
                   (EqualsIgnoringCase(value.value, "true") ||
                    EqualsIgnoringCase(value.value, "yes") ||
                    EqualsIgnoringCase(value.value, "1"))
  {
    if value.None? || value.value == "" then false
    else
      var v := ToLower(value.value);
      assert EqualsIgnoringCase(value.value, v);
      v == "true" || v == "yes" || v == "1"
  }

  /** The record `parseCSV` pushes for data line `row` (1-based). */
  function ToUserData(raw: map<string, string>, row: nat): (u: UserData)
    ensures 0 <= u.gasLevel <= 100 && 1 <= u.urgency <= 10
    ensures u.date != ""
  {
    UserData(
      date := OrElse(GetVal(raw, DateKeys), "Row " + NatToString(row)),
      earlyMeeting := ParseBoolean(GetVal(raw, EarlyMeetingKeys)),
      gasLevel := ParseNumber(GetVal(raw, GasKeys), 0, 100, 100),
      budgetMode := ParseBoolean(GetVal(raw, BudgetKeys)),
      urgency := ParseNumber(GetVal(raw, UrgencyKeys), 1, 10, 1),
      origin := OrElse(GetVal(raw, OriginKeys), ""),
      destination := OrElse(GetVal(raw, DestinationKeys), ""))
  }

  /** The defaults: a missing or empty date becomes the row label, a
      missing or empty origin or destination becomes "", and a non-empty
      cell is taken as it is; missing numbers take their defaults and missing
      flags are false. */
  lemma ToUserDataSpec(raw: map<string, string>, row: nat)
    ensures var v := GetVal(raw, DateKeys);
      ToUserData(raw, row).date == if v.None? || v.value == "" then "Row " + NatToString(row) else v.value
    ensures var v := GetVal(raw, OriginKeys);
      ToUserData(raw, row).origin == if v.None? || v.value == "" then "" else v.value
    ensures var v := GetVal(raw, DestinationKeys);
      ToUserData(raw, row).destination == if v.None? || v.value == "" then "" else v.value
    ensures GetVal(raw, GasKeys).None? ==> ToUserData(raw, row).gasLevel == 100
    ensures GetVal(raw, UrgencyKeys).None? ==> ToUserData(raw, row).urgency == 1
    ensures GetVal(raw, EarlyMeetingKeys).None? ==> !ToUserData(raw, row).earlyMeeting
    ensures GetVal(raw, BudgetKeys).None? ==> !ToUserData(raw, row).budgetMode
  {
  }

  /** The record for data line `line`, number `row`, under `headers`. */
  function RowOf(headers: seq<string>, line: string, row: nat): UserData {
    ToUserData(RawRow(headers, Fields(line)), row)
  }

  /** The body of the row loop once a line has been split: build the
      `rawData` dictionary and read the record out of it. */
  method RecordOf(headers: seq<string>, values: seq<string>, ghost line: string, row: nat)
    returns (u: UserData)
    requires values == Fields(line)
    ensures u == RowOf(headers, line, row)
  {
    var raw := BuildRawRow(headers, values);
    u := ToUserData(raw, row);
  }

  /** The reading of one data line under `headers`, as a function value. */
  function RowReader(headers: seq<string>): (string, nat) -> UserData {
    (line: string, row: nat) => RowOf(headers, line, row)
  }

  /** The records `read` makes of data lines `1 .. i - 1`, in order. */
  function Records(read: (string, nat) -> UserData, lines: seq<string>, i: nat): (rows: seq<UserData>)
    requires 1 <= i <= |lines|
    ensures |rows| == i - 1
    decreases i
  {
    if i == 1 then [] else Records(read, lines, i - 1) + [read(lines[i - 1], i - 1)]
  }

  /** Record `j - 1` is the one read from data line `j`. */
  lemma {:induction false} RecordsAt(read: (string, nat) -> UserData, lines: seq<string>, i: nat, j: nat)
    requires 1 <= j < i <= |lines|
    ensures Records(read, lines, i)[j - 1] == read(lines[j], j)
    decreases i
  {
    if j < i - 1 {
      RecordsAt(read, lines, i - 1, j);
    }
  }

  /** Every record satisfies the bounds `ToUserData` guarantees. */
  lemma RowsInRange(headers: seq<string>, lines: seq<string>, rows: seq<UserData>)
    requires |rows| == |lines| - 1
    requires forall j :: 1 <= j < |lines| ==> rows[j - 1] == RowOf(headers, lines[j], j)
    ensures forall r :: r in rows ==> 0 <= r.gasLevel <= 100 && 1 <= r.urgency <= 10 && r.date != ""
  {
    forall r | r in rows ensures 0 <= r.gasLevel <= 100 && 1 <= r.urgency <= 10 && r.date != "" {
      var k :| 0 <= k < |rows| && rows[k] == r;
      assert rows[k] == RowOf(headers, lines[k + 1], k + 1);
      ToUserDataSpec(RawRow(headers, Fields(lines[k + 1])), k + 1);
    }
  }

  /** What `parseCSV` returns: fewer than two non-blank lines give no
      records; otherwise the first is the header row and every later line
      gives one record. */
  function CsvRecords(text: string): seq<UserData> {
    var lines := DataLines(text);
    if |lines| < 2 then [] else Records(RowReader(Headers(lines[0])), lines, |lines|)
  }

  /** One record per data line, in order, each within the documented bounds. */
  lemma CsvRecordsShape(text: string)
    ensures |DataLines(text)| < 2 ==> CsvRecords(text) == []
    ensures |DataLines(text)| >= 2 ==> |CsvRecords(text)| == |DataLines(text)| - 1
    ensures |DataLines(text)| >= 2 ==>
              forall i :: 1 <= i < |DataLines(text)| ==>
                CsvRecords(text)[i - 1] == RowOf(Headers(DataLines(text)[0]), DataLines(text)[i], i)
    ensures forall r :: r in CsvRecords(text) ==>
              0 <= r.gasLevel <= 100 && 1 <= r.urgency <= 10 && r.date != ""
  {
    var lines := DataLines(text);
    if |lines| >= 2 {
      var headers := Headers(lines[0]);
      forall i | 1 <= i < |lines|
        ensures CsvRecords(text)[i - 1] == RowOf(headers, lines[i], i)
      {
        RecordsAt(RowReader(headers), lines, |lines|, i);
      }
      RowsInRange(headers, lines, Records(RowReader(headers), lines, |lines|));
    }
  }

  /** `read` gives, for every line and row number, the record `RowOf` gives
      under `headers`. */
  ghost predicate ReadsRowsOf(read: (string, nat) -> UserData, headers: seq<string>) {
    forall line, row {:trigger RowOf(headers, line, row)} :: read(line, row) == RowOf(headers, line, row)
  }

  /** One turn of the row loop of `parseCSV`: split data line `i`, skip it
      if it has no values, otherwise push its record. */
  method ReadLine(headers: seq<string>, lines: seq<string>, i: nat, rows: seq<UserData>,
                  ghost read: (string, nat) -> UserData)
    returns (rows': seq<UserData>)
    requires ReadsRowsOf(read, headers)
    requires 1 <= i < |lines| && rows == Records(read, lines, i)
    ensures rows' == Records(read, lines, i + 1)
  {
    var values := ParseLine(lines[i]);
    if |values| != 0 {
      var u := RecordOf(headers, values, lines[i], i);
      assert u == RowOf(headers, lines[i], i);
      rows' := rows + [u];
    } else {
      assert false;
    }
  }

  /** The row loop of `parseCSV`: every line after the header row becomes
      one record, numbered from 1. */
  method ReadRecords(headers: seq<string>, lines: seq<string>, ghost read: (string, nat) -> UserData)
    returns (rows: seq<UserData>)
    requires ReadsRowsOf(read, headers)
    requires |lines| >= 1
    ensures rows == Records(read, lines, |lines|)
  {
    rows := [];
    var i := 1;
    while i < |lines|
      invariant 1 <= i <= |lines|
      invariant rows == Records(read, lines, i)
    {
      rows := ReadLine(headers, lines, i, rows, read);
      i := i + 1;
    }
  }

  /** `parseCSV`: split the text into non-blank lines, read the header row,
      then turn every later line into a record. */
  method ParseCSV(text: string) returns (rows: seq<UserData>)
    ensures rows == CsvRecords(text)
  {
    var lines := DataLines(text);
    if |lines| < 2 {
      return [];
    }
    var headers := Headers(lines[0]);
    assert ReadsRowsOf(RowReader(headers), headers);
    rows := ReadRecords(headers, lines, RowReader(headers));
  }
}
