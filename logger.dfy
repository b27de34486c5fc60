/** The run log (logger.ts): every entry is kept in `logs`, error entries in
    `errors` as well, and `flush` writes the log to a file named after the
    start time, and the errors to a second one when there are any. The console output and the file system are not modelled;
    `flush` returns the appends it asks the file system for. */
module Logging {
  import opened Base
  import opened Settings

  /** A moment, as the two renderings the logger reads from a JavaScript
      `Date`: `toISOString()` and `toTimeString()`. Both depend on the clock
      and the time zone, so they are given, not computed. */
  datatype Date = Date(iso: string, timeString: string)

  /** JavaScript's `s.substring(0, n)` for `n >= 0`: a text shorter than `n`
      is returned whole. */
  function Prefix(s: string, n: nat): (r: string)
    ensures |r| == if |s| <= n then |s| else n
    ensures r == s[..|r|]
  {
    if |s| <= n then s else s[..n]
  }

  /** `getTime(date)`: the date part of the ISO rendering, a space, and the
      clock part of the local rendering, e.g. "2024-01-31 13:05:09". */
  function GetTime(d: Date): (t: string)
    ensures |t| == |Prefix(d.iso, 10)| + 1 + |Prefix(d.timeString, 8)| <= 19
    ensures t[|Prefix(d.iso, 10)|] == ' '
    ensures t[..|Prefix(d.iso, 10)|] == Prefix(d.iso, 10)
    ensures t[|Prefix(d.iso, 10)| + 1..] == Prefix(d.timeString, 8)
  {
    Prefix(d.iso, 10) + " " + Prefix(d.timeString, 8)
  }

  /** The characters JavaScript's `String.prototype.trim` removes: white
      space and line terminators. */
  predicate IsWhitespace(c: char) {
    || c == ' ' || c == '\t' || c == '\n' || c == '\U{B}' || c == '\U{C}' || c == '\r'
    || c == '\U{A0}' || c == '\U{1680}' || ('\U{2000}' <= c <= '\U{200A}')
    || c == '\U{2028}' || c == '\U{2029}' || c == '\U{202F}' || c == '\U{205F}'
    || c == '\U{3000}' || c == '\U{FEFF}'
  }

  /** `s.replace(/x/g, y)` for a one-character pattern and replacement. */
  function ReplaceAll(s: string, x: char, y: char): (r: string)
    ensures |r| == |s|
    ensures forall i :: 0 <= i < |s| ==> r[i] == (if s[i] == x then y else s[i])
  {
    if s == [] then [] else [if s[0] == x then y else s[0]] + ReplaceAll(s[1..], x, y)
  }

  /** Dropping the leading white space. */
  function TrimStart(s: string): (r: string)
    ensures |r| <= |s| && r == s[|s| - |r|..]
    ensures forall i :: 0 <= i < |s| - |r| ==> IsWhitespace(s[i])
    ensures r == [] || !IsWhitespace(r[0])
    decreases |s|
  {
    if s != [] && IsWhitespace(s[0]) then TrimStart(s[1..]) else s
  }

  /** Dropping the trailing white space. */
  function TrimEnd(s: string): (r: string)
    ensures |r| <= |s| && r == s[..|r|]
    ensures forall i :: |r| <= i < |s| ==> IsWhitespace(s[i])
    ensures r == [] || !IsWhitespace(r[|r| - 1])
    decreases |s|
  {
    if s != [] && IsWhitespace(s[|s| - 1]) then TrimEnd(s[..|s| - 1]) else s
  }

  /** `s.trim()`: white space is dropped from both ends, and what is kept
      neither starts nor ends with white space (`TrimCorrect` says which
      part is kept, and `TrimUnique` that this determines it). */
  function Trim(s: string): (r: string)
    ensures |r| <= |s|
    ensures r == [] || (!IsWhitespace(r[0]) && !IsWhitespace(r[|r| - 1]))
  {
    var a := TrimStart(s);
    var r := TrimEnd(a);
    assert r != [] ==> r[0] == a[0];
    r
  }

  /** The start time as it appears in the log file names: every space and
      every colon of `getTime(startDate)` turned into a dash, then trimmed. */
  function Stamp(d: Date): (t: string)
    ensures ' ' !in t && ':' !in t
    ensures t == [] || (!IsWhitespace(t[0]) && !IsWhitespace(t[|t| - 1]))
  {
    var once := ReplaceAll(GetTime(d), ' ', '-');
    var twice := ReplaceAll(once, ':', '-');
    ReplaceAllRemoves(GetTime(d), ' ', '-');
    ReplaceAllKeepsOut(once, ':', '-', ' ');
    ReplaceAllRemoves(once, ':', '-');
    TrimKeepsOut(twice, ' ');
    TrimKeepsOut(twice, ':');
    Trim(twice)
  }

  /** `getLogFilename(prefix)`: the prefix, a dash, the stamp and `.txt`;
      between the dash and `.txt` there is no space and no colon. */
  function LogFilename(prefix: string, startDate: Date): (name: string)
    ensures var n := |prefix| + 1;
      && |name| >= n + 4
      && name[..n] == prefix + "-"
      && name[|name| - 4..] == ".txt"
      && name[n..|name| - 4] == Stamp(startDate)
      && ' ' !in name[n..|name| - 4] && ':' !in name[n..|name| - 4]
  {
    NameParts(prefix, Stamp(startDate));
    prefix + "-" + Stamp(startDate) + ".txt"
  }

  /** The prefix `getLogFilename` uses when called without one, and the one
      the error file is written under. */
  const LogPrefix: string := "log"
  const ErrorsPrefix: string := "errors"

  /** One entry: `[<time>] <message>`, followed by ` [<fullname>]` when a
      full name is given and is not empty (an empty string is falsy). */
  function FormatEntry(time: string, message: string, fullname: Option<string>): (e: string)
    ensures var n := |time| + 3;
      && |e| >= n + |message|
      && e[..1] == "[" && e[1..|time| + 1] == time && e[|time| + 1..n] == "] "
      && e[n..n + |message|] == message
      && (Truthy(fullname) ==> e[n + |message|..] == " [" + fullname.value + "]")
      && (!Truthy(fullname) ==> |e| == n + |message|)
  {
    var tail := if Truthy(fullname) then " [" + fullname.value + "]" else "";
    var e := "[" + time + "] " + message + tail;
    assert e[..1] == "[";
    assert e[1..|time| + 1] == time;
    assert e[|time| + 1..|time| + 3] == "] ";
    assert e[|time| + 3..|time| + 3 + |message|] == message;
    assert e[|time| + 3 + |message|..] == tail;
    e
  }

  /** `xs.join(sep)`: empty for no entries; otherwise it starts with the
      first entry and ends with the last. */
  function Join(xs: seq<string>, sep: string): (r: string)
    ensures xs == [] ==> r == ""
    ensures xs != [] ==> |xs[0]| <= |r| && r[..|xs[0]|] == xs[0]
    ensures xs != [] ==> |xs[|xs| - 1]| <= |r| && r[|r| - |xs[|xs| - 1]|..] == xs[|xs| - 1]
    decreases |xs|
  {
    if xs == [] then ""
    else if |xs| == 1 then xs[0]
    else
      var init, last := xs[..|xs| - 1], xs[|xs| - 1];
      var j := Join(init, sep);
      assert init[0] == xs[0];
      assert (j + sep + last)[..|xs[0]|] == j[..|xs[0]|];
      j + sep + last
  }

  /** One `fs.appendFile` call: the file, named relative to the configured
      directory, and the text appended to it. */
  datatype FileAppend = FileAppend(fileName: string, text: string)

  class Logger {
    var logs: seq<string>
    var errors: seq<string>
    const startDate: Date

    /** Every error entry is also a log entry, in the same order. */
    ghost predicate Valid()
      reads this
    {
      IsSubsequence(errors, logs)
    }

    constructor(startDate: Date)
      ensures logs == [] && errors == [] && this.startDate == startDate
      ensures Valid()
    {
      logs := [];
      errors := [];
      this.startDate := startDate;
    }

    /** `log(message, fullname)` at the moment `now`. */
    method Log(message: string, fullname: Option<string>, now: Date)
      requires Valid()
      modifies this
      ensures logs == old(logs) + [FormatEntry(GetTime(now), message, fullname)]
      ensures errors == old(errors)
      ensures Valid()
    {
      var msg := FormatEntry(GetTime(now), message, fullname);
      SubsequenceSnocRight(errors, logs, msg);
      logs := logs + [msg];
    }

    /** `error(message, fullname)` at the moment `now`: the same entry goes
        to both buffers. */
    method Error(message: string, fullname: Option<string>, now: Date)
      requires Valid()
      modifies this
      ensures logs == old(logs) + [FormatEntry(GetTime(now), message, fullname)]
      ensures errors == old(errors) + [FormatEntry(GetTime(now), message, fullname)]
      ensures Valid()
    {
      var msg := FormatEntry(GetTime(now), message, fullname);
      SubsequenceSnocBoth(errors, logs, msg);
      logs := logs + [msg];
      errors := errors + [msg];
    }

    /** `flush()` at the moment `now`: a "Flushing log" entry is logged, then
        the whole log is appended to the log file, and the error entries to
        the error file when there are any. */
    method Flush(now: Date) returns (appends: seq<FileAppend>)
      requires Valid()
      modifies this
      ensures logs == old(logs) + [FormatEntry(GetTime(now), "Flushing log", None)]
      ensures errors == old(errors)
      ensures Valid()
      ensures appends ==
        [FileAppend(LogFilename(LogPrefix, startDate), Join(logs, "\n"))] +
        (if errors == [] then [] else [FileAppend(LogFilename(ErrorsPrefix, startDate), Join(errors, "\n"))])
    {
      Log("Flushing log", None, now);
      var logFile := FileAppend(LogFilename(LogPrefix, startDate), Join(logs, "\n"));
      if |errors| > 0 {
        var errorFile := FileAppend(LogFilename(ErrorsPrefix, startDate), Join(errors, "\n"));
        appends := [logFile, errorFile];
      } else {
        appends := [logFile];
      }
    }
  }

  // ---------------------------------------------------------------------------
  // Properties of the entries and of the file names

  /** `log` with a missing or empty full name formats the same entry. */
  lemma FormatEntryEmptyName(time: string, message: string)
    ensures FormatEntry(time, message, Some("")) == FormatEntry(time, message, None)
    ensures FormatEntry(time, message, None) == "[" + time + "] " + message
  {
  }

  /** Replacing every `x` leaves none. */
  lemma {:induction false} ReplaceAllRemoves(s: string, x: char, y: char)
    requires x != y
    ensures x !in ReplaceAll(s, x, y)
  {
    var r := ReplaceAll(s, x, y);
    forall i | 0 <= i < |r| ensures r[i] != x {
    }
  }

  /** Replacement works character by character, so it distributes over
      concatenation. */
  lemma {:induction false} ReplaceAllAppend(s: string, t: string, x: char, y: char)
    ensures ReplaceAll(s + t, x, y) == ReplaceAll(s, x, y) + ReplaceAll(t, x, y)
  {
    var l, r := ReplaceAll(s + t, x, y), ReplaceAll(s, x, y) + ReplaceAll(t, x, y);
    assert |l| == |r|;
    forall i | 0 <= i < |l| ensures l[i] == r[i] {
      if i < |s| {
        assert (s + t)[i] == s[i];
      } else {
        assert (s + t)[i] == t[i - |s|];
      }
    }
  }

  /** Trimming keeps a contiguous part of the text, starting where
      `TrimStart` stops, and drops only white space from both ends. */
  lemma TrimCorrect(s: string) returns (k: nat)
    ensures var r := Trim(s);
      && k + |r| <= |s| && r == s[k..k + |r|]
      && (forall i :: 0 <= i < k ==> IsWhitespace(s[i]))
      && (forall i :: k + |r| <= i < |s| ==> IsWhitespace(s[i]))
  {
    var a := TrimStart(s);
    var r := TrimEnd(a);
    k := |s| - |a|;
    assert r == a[..|r|];
    assert a[..|r|] == s[k..k + |r|];
    forall i | k + |r| <= i < |s| ensures IsWhitespace(s[i]) {
      assert s[i] == a[i - k];
    }
  }

  /** What `TrimCorrect` and the contract of `Trim` state determines the
      result: whenever a text is white space, then a part `r` that neither
      starts nor ends with white space, then white space again, `Trim`
      returns exactly `r`. */
  lemma TrimUnique(s: string, k: nat, r: string)
    requires k + |r| <= |s| && r == s[k..k + |r|]
    requires forall i :: 0 <= i < k ==> IsWhitespace(s[i])
    requires forall i :: k + |r| <= i < |s| ==> IsWhitespace(s[i])
    requires r == [] || (!IsWhitespace(r[0]) && !IsWhitespace(r[|r| - 1]))
    ensures Trim(s) == r
  {
    var t := Trim(s);
    var k' := TrimCorrect(s);
    if r == [] {
      assert forall i :: 0 <= i < |s| ==> IsWhitespace(s[i]);
      assert t == [];
    } else {
      assert !IsWhitespace(s[k]) && !IsWhitespace(s[k + |r| - 1]);
      assert k' <= k < k' + |t|;
      assert !IsWhitespace(s[k']) && !IsWhitespace(s[k' + |t| - 1]);
      assert k' == k;
      assert k + |r| == k' + |t|;
    }
  }

  /** A text with no white space at either end is left as it is. */
  lemma TrimUnchanged(s: string)
    requires s == [] || (!IsWhitespace(s[0]) && !IsWhitespace(s[|s| - 1]))
    ensures Trim(s) == s
  {
  }

  /** Trimming does not bring back characters: what is absent before is
      absent after. */
  lemma TrimKeepsOut(s: string, c: char)
    requires c !in s
    ensures c !in Trim(s)
  {
    var k := TrimCorrect(s);
    var r := Trim(s);
    forall i | 0 <= i < |r| ensures r[i] != c {
      assert r[i] == s[k + i];
    }
  }

  /** Replacing `x` by `y` brings in no character other than `y`. */
  lemma {:induction false} ReplaceAllKeepsOut(s: string, x: char, y: char, c: char)
    requires c !in s && c != y
    ensures c !in ReplaceAll(s, x, y)
  {
    var r := ReplaceAll(s, x, y);
    forall i | 0 <= i < |r| ensures r[i] != c {
      assert s[i] != c;
    }
  }

  /** The parts of `prefix-<t>.txt`. */
  lemma NameParts(prefix: string, t: string)
    ensures var name, n := prefix + "-" + t + ".txt", |prefix| + 1;
      && |name| == n + |t| + 4
      && name[..n] == prefix + "-"
      && name[n..|name| - 4] == t
      && name[|name| - 4..] == ".txt"
  {
  }

  /** The log file and the error file of one run carry the same stamp and
      differ only in their prefix. */
  lemma LogFilenamesShareStamp(p: string, q: string, startDate: Date)
    ensures LogFilename(p, startDate)[|p|..] == LogFilename(q, startDate)[|q|..]
  {
    SameTail(p, Stamp(startDate));
    SameTail(q, Stamp(startDate));
  }

  lemma SameTail(prefix: string, t: string)
    ensures (prefix + "-" + t + ".txt")[|prefix|..] == "-" + t + ".txt"
  {
    assert prefix + "-" + t + ".txt" == prefix + ("-" + t + ".txt");
  }

  /** Every character is a digit or `sep`. */
  predicate DigitsAnd(s: string, sep: char) {
    forall i :: 0 <= i < |s| ==> ('0' <= s[i] <= '9' || s[i] == sep)
  }

  /** For the renderings a JavaScript `Date` produces (an ISO date such as
      "2024-01-31" and a local time starting with "13:05:09"), the log file
      name is "<prefix>-2024-01-31-13-05-09.txt". */
  lemma LogFilenameOfTypicalDate(prefix: string, d: Date)
    requires |d.iso| >= 10 && |d.timeString| >= 8
    requires DigitsAnd(d.iso[..10], '-') && DigitsAnd(d.timeString[..8], ':')
    ensures LogFilename(prefix, d) ==
      prefix + "-" + d.iso[..10] + "-" + ReplaceAll(d.timeString[..8], ':', '-') + ".txt"
  {
    TypicalStamp(d);
    NameRegroup(prefix, d.iso[..10], ReplaceAll(d.timeString[..8], ':', '-'));
  }

  lemma NameRegroup(prefix: string, a: string, b: string)
    ensures prefix + "-" + (a + "-" + b) + ".txt" == prefix + "-" + a + "-" + b + ".txt"
  {
  }

  lemma TypicalStamp(d: Date)
    requires |d.iso| >= 10 && |d.timeString| >= 8
    requires DigitsAnd(d.iso[..10], '-') && DigitsAnd(d.timeString[..8], ':')
    ensures Stamp(d) == d.iso[..10] + "-" + ReplaceAll(d.timeString[..8], ':', '-')
  {
    assert GetTime(d) == d.iso[..10] + " " + d.timeString[..8];
    StampOfParts(d.iso[..10], d.timeString[..8]);
  }

  /** The stamp of "<date> <clock>" for a date of digits and dashes and a
      clock of digits and colons. */
  lemma StampOfParts(date: string, clock: string)
    requires date != [] && clock != []
    requires DigitsAnd(date, '-') && DigitsAnd(clock, ':')
    ensures Trim(ReplaceAll(ReplaceAll(date + " " + clock, ' ', '-'), ':', '-')) ==
            date + "-" + ReplaceAll(clock, ':', '-')
  {
    var c := ReplaceAll(clock, ':', '-');
    DigitsAndLacks(date, '-', ' ');
    DigitsAndLacks(date, '-', ':');
    DigitsAndLacks(clock, ':', ' ');
    TypicalStampBeforeTrim(date, clock);
    DigitsAndReplaced(clock);
    TrimUnchangedJoin(date, c);
  }

  /** The clock with its colons turned into dashes is digits and dashes. */
  lemma DigitsAndReplaced(clock: string)
    requires DigitsAnd(clock, ':')
    ensures DigitsAnd(ReplaceAll(clock, ':', '-'), '-')
  {
  }

  /** Trimming leaves "<a>-<b>" alone when both are non-empty digits and
      dashes. */
  lemma TrimUnchangedJoin(a: string, b: string)
    requires a != [] && b != [] && DigitsAnd(a, '-') && DigitsAnd(b, '-')
    ensures Trim(a + "-" + b) == a + "-" + b
  {
    var t := a + "-" + b;
    assert t[0] == a[0] && t[|t| - 1] == b[|b| - 1];
    TrimUnchanged(t);
  }

  /** Digits and `sep` leave out every other character. */
  lemma DigitsAndLacks(s: string, sep: char, c: char)
    requires DigitsAnd(s, sep) && c != sep && !('0' <= c <= '9')
    ensures c !in s
  {
  }

  /** The two replacements on "<date> <clock>" when the date has no space or
      colon and the clock no space. */
  lemma TypicalStampBeforeTrim(date: string, clock: string)
    requires ' ' !in date && ':' !in date && ' ' !in clock
    ensures ReplaceAll(ReplaceAll(date + " " + clock, ' ', '-'), ':', '-') ==
            date + "-" + ReplaceAll(clock, ':', '-')
  {
    ReplaceAround(date, " ", clock, ' ', '-');
    ReplaceAllAbsent(clock, ' ', '-');
    assert ReplaceAll(" ", ' ', '-') == "-";
    ReplaceAround(date, "-", clock, ':', '-');
    assert ReplaceAll("-", ':', '-') == "-";
  }

  /** Replacing in `a + m + b` where `a` holds no `x`. */
  lemma ReplaceAround(a: string, m: string, b: string, x: char, y: char)
    requires x !in a
    ensures ReplaceAll(a + m + b, x, y) == a + ReplaceAll(m, x, y) + ReplaceAll(b, x, y)
  {
    ReplaceAllAppend(a + m, b, x, y);
    ReplaceAllAppend(a, m, x, y);
    ReplaceAllAbsent(a, x, y);
  }

  /** A text without `x` is left as it is. */
  lemma ReplaceAllAbsent(s: string, x: char, y: char)
    requires x !in s
    ensures ReplaceAll(s, x, y) == s
  {
    var r := ReplaceAll(s, x, y);
    forall i | 0 <= i < |s| ensures r[i] == s[i] {
      assert s[i] in s;
    }
  }

  /** Joining one more entry adds the separator and the entry. */
  lemma JoinSnoc(xs: seq<string>, x: string, sep: string)
    requires xs != []
    ensures Join(xs + [x], sep) == Join(xs, sep) + sep + x
  {
    assert (xs + [x])[..|xs|] == xs;
  }

  /** Joining two non-empty lists is joining each and putting the
      separator between them. */
  lemma {:induction false} JoinAppend(xs: seq<string>, ys: seq<string>, sep: string)
    requires xs != [] && ys != []
    ensures Join(xs + ys, sep) == Join(xs, sep) + sep + Join(ys, sep)
    decreases |ys|
  {
    var init, last := ys[..|ys| - 1], ys[|ys| - 1];
    if init == [] {
      assert ys == [last];
      JoinSnoc(xs, last, sep);
    } else {
      assert xs + ys == (xs + init) + [last];
      assert ys == init + [last];
      JoinSnoc(xs + init, last, sep);
      JoinAppend(xs, init, sep);
      JoinSnoc(init, last, sep);
      Regroup(Join(xs, sep), sep, Join(init, sep), last);
    }
  }

  lemma Regroup(a: string, sep: string, b: string, c: string)
    ensures a + sep + b + sep + c == a + sep + (b + sep + c)
  {
  }

  /** The joined text of the first `n` entries opens the joined text of
      all of them. */
  lemma JoinPrefix(xs: seq<string>, sep: string, n: nat)
    requires 0 < n <= |xs|
    ensures var j := Join(xs[..n], sep); |j| <= |Join(xs, sep)| && Join(xs, sep)[..|j|] == j
  {
    if n < |xs| {
      var front, rest := xs[..n], xs[n..];
      assert xs == front + rest;
      JoinAppend(front, rest, sep);
      OpensWith(Join(front, sep), sep + Join(rest, sep));
      Associate(Join(front, sep), sep, Join(rest, sep));
    } else {
      assert xs[..n] == xs;
    }
  }

  /** Every entry appears, unchanged, in the joined text: entry `i` closes
      the joined text of the first `i + 1` entries, which opens the whole. */
  lemma JoinKeepsEntry(xs: seq<string>, sep: string, i: nat) returns (k: nat)
    requires i < |xs|
    ensures k + |xs[i]| <= |Join(xs, sep)| && Join(xs, sep)[k..k + |xs[i]|] == xs[i]
  {
    var upto := xs[..i + 1];
    assert upto[|upto| - 1] == xs[i];
    JoinPrefix(xs, sep, i + 1);
    k := |Join(upto, sep)| - |xs[i]|;
    ClosesFront(Join(xs, sep), Join(upto, sep), xs[i]);
  }

  lemma Associate(a: string, b: string, c: string)
    ensures a + b + c == a + (b + c)
  {
  }

  lemma OpensWith(a: string, b: string)
    ensures (a + b)[..|a|] == a
  {
  }

  /** If `j` opens `w` and `e` closes `j`, then `e` sits in `w` where it
      sits in `j`. */
  lemma ClosesFront(w: string, j: string, e: string)
    requires |j| <= |w| && w[..|j|] == j
    requires |e| <= |j| && j[|j| - |e|..] == e
    ensures w[|j| - |e|..|j|] == e
  {
    assert w[|j| - |e|..|j|] == w[..|j|][|j| - |e|..];
  }
}
