/**
 Splitting a migration script into statements: comments are dropped, semicolons
 split unless they stand in a string literal, statements are trimmed and empty
 ones left out.
 */
module SqlSplitter {
  import opened Wrappers

  datatype Quote = Plain | Single | Double

  /** What the splitter trims: JavaScript's white space and line terminators. */
  predicate IsSpace(c: char) {
    || c == '\t' || c == '\n' || c == '\U{000B}' || c == '\U{000C}' || c == '\r' || c == ' ' || c == '\U{00A0}' || c == '\U{1680}'
    || '\U{2000}' <= c <= '\U{200A}' || c == '\U{2028}' || c == '\U{2029}' || c == '\U{202F}' || c == '\U{205F}'
    || c == '\U{3000}' || c == '\U{FEFF}'
  }

  function TrimStart(s: string): string {
    if s != "" && IsSpace(s[0]) then TrimStart(s[1..]) else s
  }

  function TrimEnd(s: string): string {
    if s != "" && IsSpace(s[|s| - 1]) then TrimEnd(s[..|s| - 1]) else s
  }

  function Trim(s: string): string { TrimEnd(TrimStart(s)) }

  predicate AllSpace(s: string) { forall i :: 0 <= i < |s| ==> IsSpace(s[i]) }

  predicate IsTrimmed(s: string) { s != "" ==> !IsSpace(s[0]) && !IsSpace(s[|s| - 1]) }

  // ---- the scanner ----

  predicate OpensLine(s: string) { |s| >= 2 && s[0] == '-' && s[1] == '-' }
  predicate OpensBlock(s: string) { |s| >= 2 && s[0] == '/' && s[1] == '*' }
  predicate ClosesBlock(s: string) { |s| >= 2 && s[0] == '*' && s[1] == '/' }

  /** What is left from the next line feed on. */
  function SkipLine(s: string): (rest: string)
    ensures |rest| <= |s|
  {
    if s == "" || s[0] == '\n' then s else SkipLine(s[1..])
  }

  /** What is left behind the next end of a block comment; nothing when it never ends. */
  function SkipBlock(s: string): (rest: string)
    ensures |rest| <= |s|
  {
    if s == "" then "" else if ClosesBlock(s) then s[2..] else SkipBlock(s[1..])
  }

  function Toggle(q: Quote, c: char): Quote {
    if c == '\'' && q != Double then (if q == Single then Plain else Single)
    else if c == '"' && q != Single then (if q == Double then Plain else Double)
    else q
  }

  function Emit(buf: string): seq<string> { if Trim(buf) == "" then [] else [Trim(buf)] }

  /** The statements still to come, with `s` unread, `buf` collected, and quotes open as `q` says. */
  function From(s: string, q: Quote, buf: string): seq<string>
    decreases |s|
  {
    if s == "" then Emit(buf)
    else if q == Plain && OpensLine(s) then From(SkipLine(s[1..]), q, buf)
    else if q == Plain && OpensBlock(s) then From(SkipBlock(s[2..]), q, buf)
    else if q == Plain && s[0] == ';' then Emit(buf) + From(s[1..], Plain, "")
    else From(s[1..], Toggle(q, s[0]), buf + [s[0]])
  }

  function Split(sql: string): seq<string> { From(sql, Plain, "") }

  /** What is unread at cursor `i`, which may have overshot the end by one. */
  function Unread(sql: string, i: nat): string { if i <= |sql| then sql[i..] else "" }

  method SkipToLineFeed(sql: string, start: nat) returns (i: nat)
    requires start <= |sql|
    ensures start <= i <= |sql| && sql[i..] == SkipLine(sql[start..])
  {
    i := start;
    while i < |sql| && sql[i] != '\n'
      invariant start <= i <= |sql| && SkipLine(sql[i..]) == SkipLine(sql[start..])
    {
      assert sql[i..][1..] == sql[i + 1..];
      i := i + 1;
    }
  }

  method SkipPastBlock(sql: string, start: nat) returns (i: nat)
    requires start <= |sql|
    ensures start < i && Unread(sql, i) == SkipBlock(sql[start..])
  {
    i := start;
    while i < |sql| && !(sql[i] == '*' && i + 1 < |sql| && sql[i + 1] == '/')
      invariant start <= i <= |sql| && SkipBlock(sql[i..]) == SkipBlock(sql[start..])
    {
      assert sql[i..][1..] == sql[i + 1..];
      i := i + 1;
    }
    i := i + 2;
  }

  /** What reading on from cursor `i` amounts to. */
  lemma {:induction false} ReadOn(sql: string, i: nat, q: Quote, buf: string)
    requires i < |sql|
    ensures var line := i + 1 < |sql| && sql[i] == '-' && sql[i + 1] == '-';
      var block := i + 1 < |sql| && sql[i] == '/' && sql[i + 1] == '*';
      From(Unread(sql, i), q, buf)
      == if q == Plain && line then From(SkipLine(sql[i + 1..]), q, buf)
         else if q == Plain && block then From(SkipBlock(sql[i + 2..]), q, buf)
         else if q == Plain && sql[i] == ';' then Emit(buf) + From(Unread(sql, i + 1), Plain, "")
         else From(Unread(sql, i + 1), Toggle(q, sql[i]), buf + [sql[i]])
  {
    var s := sql[i..];
    assert s[0] == sql[i] && s[1..] == sql[i + 1..];
    if i + 1 < |sql| { assert s[1] == sql[i + 1] && s[2..] == sql[i + 2..]; }
  }

  lemma {:induction false} EmitFirst(a: seq<string>, b: seq<string>, c: seq<string>)
    ensures a + (b + c) == (a + b) + c && a + [] == a
  {
  }

  /** The scanner terminates on every input and computes `Split`. */
  method SplitSqlStatements(sql: string) returns (statements: seq<string>)
    ensures statements == Split(sql)
  {
    statements := [];
    var buf, i, inSingle, inDouble := "", 0, false, false;
    ghost var q := Plain;
    assert Unread(sql, 0) == sql;
    assert forall b: string, p: Quote :: From("", p, b) == Emit(b);
    hide From, Trim, SkipLine, SkipBlock;
    while i < |sql|
      invariant inSingle == (q == Single) && inDouble == (q == Double)
      invariant statements + From(Unread(sql, i), q, buf) == Split(sql)
      decreases |sql| - i
    {
      ReadOn(sql, i, q, buf);
      var c := sql[i];
      if !inSingle && !inDouble && c == '-' && i + 1 < |sql| && sql[i + 1] == '-' {
        i := SkipToLineFeed(sql, i + 1);
        continue;
      }
      if !inSingle && !inDouble && c == '/' && i + 1 < |sql| && sql[i + 1] == '*' {
        i := SkipPastBlock(sql, i + 2);
        continue;
      }
      if !inDouble && c == '\'' {
        q, inSingle := Toggle(q, c), !inSingle;
        buf := buf + [c];
      } else if !inSingle && c == '"' {
        q, inDouble := Toggle(q, c), !inDouble;
        buf := buf + [c];
      } else if !inSingle && !inDouble && c == ';' {
        var trimmed := Trim(buf);
        EmitFirst(statements, Emit(buf), From(Unread(sql, i + 1), Plain, ""));
        if trimmed != "" { statements := statements + [trimmed]; }
        buf := "";
      } else {
        buf := buf + [c];
      }
      i := i + 1;
    }
    var tail := Trim(buf);
    if tail != "" { statements := statements + [tail]; }
  }

  // ---- trimming ----

  lemma {:induction false} TrimStartSkips(ws: string, s: string)
    requires AllSpace(ws)
    ensures TrimStart(ws + s) == TrimStart(s)
  {
    if ws == "" {
      assert ws + s == s;
    } else {
      assert (ws + s)[1..] == ws[1..] + s;
      TrimStartSkips(ws[1..], s);
    }
  }

  lemma {:induction false} TrimEndSkips(s: string, ws: string)
    requires AllSpace(ws)
    ensures TrimEnd(s + ws) == TrimEnd(s)
  {
    if ws == "" {
      assert s + ws == s;
    } else {
      var init := ws[..|ws| - 1];
      assert (s + ws)[..|s + ws| - 1] == s + init;
      TrimEndSkips(s, init);
    }
  }

  /** White space around a trimmed text is exactly what trimming removes. */
  lemma {:induction false} TrimInSpace(before: string, s: string, after: string)
    requires AllSpace(before) && AllSpace(after) && IsTrimmed(s)
    ensures Trim(before + s + after) == s
  {
    if s == "" {
      assert before + s + after == (before + after) + "";
      TrimStartSkips(before + after, "");
    } else {
      assert before + s + after == before + (s + after);
      TrimStartSkips(before, s + after);
      TrimEndSkips(s, after);
    }
  }

  lemma {:induction false} TrimTrimmed(s: string)
    requires IsTrimmed(s)
    ensures Trim(s) == s
  {
    assert "" + s + "" == s;
    TrimInSpace("", s, "");
  }

  /** Trimming cuts white space off both ends and leaves a trimmed text. */
  lemma {:induction false} TrimCuts(s: string) returns (before: string, after: string)
    ensures AllSpace(before) && AllSpace(after) && s == before + Trim(s) + after && IsTrimmed(Trim(s))
  {
    before := TrimStartCuts(s);
    after := TrimEndCuts(TrimStart(s));
    assert s == before + (Trim(s) + after);
  }

  lemma {:induction false} TrimStartCuts(s: string) returns (before: string)
    ensures AllSpace(before) && s == before + TrimStart(s)
    ensures TrimStart(s) != "" ==> !IsSpace(TrimStart(s)[0])
  {
    before := "";
    if s != "" && IsSpace(s[0]) {
      before := TrimStartCuts(s[1..]);
      before := [s[0]] + before;
    }
  }

  lemma {:induction false} TrimEndCuts(s: string) returns (after: string)
    ensures AllSpace(after) && s == TrimEnd(s) + after
    ensures TrimEnd(s) != "" ==> !IsSpace(TrimEnd(s)[|TrimEnd(s)| - 1])
  {
    after := "";
    if s != "" && IsSpace(s[|s| - 1]) {
      after := TrimEndCuts(s[..|s| - 1]);
      after := after + [s[|s| - 1]];
    }
  }

  // ---- statements ----

  function QuoteAfter(s: string): Quote {
    if s == "" then Plain else Toggle(QuoteAfter(s[..|s| - 1]), s[|s| - 1])
  }

  /** Is position `i` outside the string literals? */
  predicate Outside(s: string, i: nat)
    requires i <= |s|
  {
    QuoteAfter(s[..i]) == Plain
  }

  predicate OpensComment(s: string) { OpensLine(s) || OpensBlock(s) }

  ghost predicate NoOpenSemicolon(s: string) { forall i :: 0 <= i < |s| && Outside(s, i) ==> s[i] != ';' }
  ghost predicate NoOpenComment(s: string) { forall i :: 0 <= i < |s| && Outside(s, i) ==> !OpensComment(s[i..]) }
  predicate Balanced(s: string) { QuoteAfter(s) == Plain }

  /** A trimmed statement with its quotes balanced and neither comment nor semicolon outside them. */
  ghost predicate Clean(s: string) { IsTrimmed(s) && Balanced(s) && NoOpenSemicolon(s) && NoOpenComment(s) }

  /** The last character of `a` and the first of `b` open no comment between them. */
  predicate Joins(a: string, b: string) {
    a != "" && b != "" ==> !OpensComment([a[|a| - 1], b[0]])
  }

  lemma {:induction false} ScanStatement(s: string, k: nat, rest: string, buf: string)
    requires NoOpenSemicolon(s) && NoOpenComment(s) && Joins(s, rest) && k <= |s|
    ensures From(s[k..] + rest, QuoteAfter(s[..k]), buf + s[..k]) == From(rest, QuoteAfter(s), buf + s)
    decreases |s| - k
  {
    if k == |s| {
      assert s[k..] + rest == rest && s[..k] == s;
    } else {
      var text, q := s[k..] + rest, QuoteAfter(s[..k]);
      assert text[1..] == s[k + 1..] + rest;
      assert s[..k + 1][..k] == s[..k] && (buf + s[..k]) + [s[k]] == buf + s[..k + 1];
      assert q == Plain ==> Outside(s, k);
      assert !(q == Plain && OpensComment(text)) by {
        if k + 1 < |s| { assert s[k..][..2] == text[..2]; }
      }
      ScanStatement(s, k + 1, rest, buf);
    }
  }

  // ---- comments between statements ----

  /** What may stand around a statement: white space, and comments. */
  datatype Filler = Space(c: char) | Line(body: string) | Block(body: string)

  ghost predicate FillerOk(f: Filler) {
    match f
    case Space(c) => IsSpace(c)
    case Line(body) => forall i :: 0 <= i < |body| ==> body[i] != '\n'
    case Block(body) => forall i :: 0 <= i < |body| ==> !ClosesBlock(body[i..])
  }

  ghost predicate GapOk(gap: seq<Filler>) { forall i :: 0 <= i < |gap| ==> FillerOk(gap[i]) }

  function Text(f: Filler): string {
    match f
    case Space(c) => [c]
    case Line(body) => "--" + body + "\n"
    case Block(body) => "/*" + body + "*/"
  }

  function GapText(gap: seq<Filler>): string { if gap == [] then "" else Text(gap[0]) + GapText(gap[1..]) }

  lemma {:induction false} SkipLineBody(body: string, rest: string)
    requires forall i :: 0 <= i < |body| ==> body[i] != '\n'
    requires rest != "" ==> rest[0] == '\n'
    ensures SkipLine(body + rest) == rest
  {
    if body == "" {
      assert body + rest == rest;
    } else {
      assert (body + rest)[1..] == body[1..] + rest;
      SkipLineBody(body[1..], rest);
    }
  }

  lemma {:induction false} SkipBlockBody(body: string, rest: string)
    requires forall i :: 0 <= i < |body| ==> !ClosesBlock(body[i..])
    ensures SkipBlock(body + "*/" + rest) == rest
  {
    var text := body + "*/" + rest;
    if body == "" {
      assert text[2..] == rest;
    } else {
      assert text[1..] == body[1..] + "*/" + rest;
      assert !ClosesBlock(text) by {
        assert !ClosesBlock(body[0..]);
        assert |body| >= 2 ==> body[0..][1] == text[1];
      }
      forall i | 0 <= i < |body| - 1 ensures !ClosesBlock(body[1..][i..]) {
        ghost var j := i + 1;
        assert body[1..][i..] == body[j..];
      }
      SkipBlockBody(body[1..], rest);
    }
  }

  /** A filler leaves white space in the buffer, and nothing else. */
  lemma {:induction false} ScanFiller(f: Filler, rest: string, buf: string) returns (left: string)
    requires FillerOk(f)
    ensures AllSpace(left) && From(Text(f) + rest, Plain, buf) == From(rest, Plain, buf + left)
  {
    match f
    case Space(c) =>
      left := [c];
      assert (Text(f) + rest)[1..] == rest;
    case Line(body) =>
      left := "\n";
      ScanLine(body, rest, buf);
    case Block(body) =>
      left := "";
      ScanBlock(body, rest, buf);
      assert buf + left == buf;
  }

  lemma {:induction false} ScanLine(body: string, rest: string, buf: string)
    requires FillerOk(Line(body))
    ensures From("--" + body + "\n" + rest, Plain, buf) == From(rest, Plain, buf + "\n")
  {
    var text := "--" + body + "\n" + rest;
    assert text[1..] == ("-" + body) + ("\n" + rest);
    SkipLineBody("-" + body, "\n" + rest);
    assert ("\n" + rest)[1..] == rest;
  }

  lemma {:induction false} ScanBlock(body: string, rest: string, buf: string)
    requires FillerOk(Block(body))
    ensures From("/*" + body + "*/" + rest, Plain, buf) == From(rest, Plain, buf)
  {
    var text := "/*" + body + "*/" + rest;
    assert text[2..] == body + "*/" + rest;
    SkipBlockBody(body, rest);
  }

  lemma {:induction false} ScanGap(gap: seq<Filler>, rest: string, buf: string) returns (left: string)
    requires GapOk(gap)
    ensures AllSpace(left) && From(GapText(gap) + rest, Plain, buf) == From(rest, Plain, buf + left)
  {
    hide From, FillerOk, Text;
    if gap == [] {
      left := "";
      assert GapText(gap) + rest == rest && buf + left == buf;
    } else {
      var first := ScanFiller(gap[0], GapText(gap[1..]) + rest, buf);
      assert GapText(gap) + rest == Text(gap[0]) + (GapText(gap[1..]) + rest);
      var more := ScanGap(gap[1..], rest, buf + first);
      left := first + more;
      assert (buf + first) + more == buf + left;
    }
  }

  // ---- scripts ----

  /** A statement, possibly none, with what stands around it. */
  datatype Segment = Segment(before: seq<Filler>, statement: string, after: seq<Filler>)

  function SegmentText(g: Segment): string { GapText(g.before) + g.statement + GapText(g.after) }

  ghost predicate SegmentOk(g: Segment) { GapOk(g.before) && GapOk(g.after) && Clean(g.statement) }

  ghost predicate ScriptOk(segments: seq<Segment>) { forall i :: 0 <= i < |segments| ==> SegmentOk(segments[i]) }

  /** The script: the segments with a semicolon between them, and at the end what nothing closes any more. */
  function Script(segments: seq<Segment>, tail: string): string {
    if segments == [] then tail
    else if |segments| == 1 then SegmentText(segments[0]) + tail
    else SegmentText(segments[0]) + ";" + Script(segments[1..], tail)
  }

  function Statements(segments: seq<Segment>): seq<string> {
    if segments == [] then [] else
      (if segments[0].statement == "" then [] else [segments[0].statement]) + Statements(segments[1..])
  }

  /** An unfinished comment at the end of the text, or none. */
  ghost predicate TailOk(tail: string) {
    || tail == ""
    || (OpensLine(tail) && forall i :: 0 <= i < |tail| ==> tail[i] != '\n')
    || (OpensBlock(tail) && forall i :: 2 <= i < |tail| ==> !ClosesBlock(tail[i..]))
  }

  lemma {:induction false} SkipUnclosed(s: string)
    requires forall i :: 0 <= i < |s| ==> !ClosesBlock(s[i..])
    ensures SkipBlock(s) == ""
  {
    if s != "" {
      assert s[0..] == s;
      forall i | 0 <= i < |s| - 1 ensures !ClosesBlock(s[1..][i..]) {
        ghost var j := i + 1;
        assert s[1..][i..] == s[j..];
      }
      SkipUnclosed(s[1..]);
    }
  }

  lemma {:induction false} ScanTail(tail: string, buf: string)
    requires TailOk(tail)
    ensures From(tail, Plain, buf) == Emit(buf)
  {
    if OpensLine(tail) {
      SkipLineBody(tail[1..], "");
      assert tail[1..] + "" == tail[1..];
    } else if OpensBlock(tail) {
      var body := tail[2..];
      forall i | 0 <= i < |body| ensures !ClosesBlock(body[i..]) {
        ghost var j := i + 2;
        assert body[i..] == tail[j..];
      }
      SkipUnclosed(body);
    }
  }

  /** What comes behind segment `i`, as far as it matters: the tail behind the last one. */
  function Behind(segments: seq<Segment>, tail: string): string { if |segments| == 1 then tail else "" }

  /** The statement keeps clear of the comment behind it: a minus and a line comment would run together. */
  predicate StandsClear(g: Segment, behind: string) { Joins(g.statement, GapText(g.after) + behind) }

  /** What splitting makes of a statement: run into a line comment, it loses its last minus to it. */
  function Kept(g: Segment, behind: string): string {
    if StandsClear(g, behind) then g.statement else Trim(g.statement[..|g.statement| - 1])
  }

  function KeptStatements(segments: seq<Segment>, tail: string): seq<string> {
    if segments == [] then [] else
      var kept := Kept(segments[0], Behind(segments, tail));
      (if kept == "" then [] else [kept]) + KeptStatements(segments[1..], tail)
  }

  ghost predicate AllStandClear(segments: seq<Segment>, tail: string) {
    segments == [] || (StandsClear(segments[0], Behind(segments, tail)) && AllStandClear(segments[1..], tail))
  }

  /** A minus in front of a line comment is part of the comment. */
  lemma {:induction false} ScanMinus(rest: string, buf: string)
    requires OpensLine(rest)
    ensures From("-" + rest, Plain, buf) == From(rest, Plain, buf)
  {
    assert ("-" + rest)[1..] == rest && ("-" + rest)[0] == '-';
  }

  /** What stands behind a statement starts with a minus only as a line comment, and never with an asterisk. */
  lemma {:induction false} FillerStart(f: Filler, rest: string)
    requires FillerOk(f)
    ensures var y := Text(f) + rest; y != "" && y[0] != '*' && (y[0] == '-' ==> OpensLine(y))
  {
  }

  lemma {:induction false} GapStart(gap: seq<Filler>, rest: string)
    requires GapOk(gap) && (rest == "" || rest[0] == ';' || OpensLine(rest) || OpensBlock(rest))
    ensures var y := GapText(gap) + rest; y != "" ==> y[0] != '*' && (y[0] == '-' ==> OpensLine(y))
  {
    if gap == [] {
      assert GapText(gap) + rest == rest;
    } else {
      assert GapText(gap) + rest == Text(gap[0]) + (GapText(gap[1..]) + rest);
      FillerStart(gap[0], GapText(gap[1..]) + rest);
      hide *;
    }
  }

  /** Only a line comment can run together with the statement before it. */
  lemma {:induction false} RunsTogether(a: string, gap: seq<Filler>, rest: string)
    requires GapOk(gap) && !Joins(a, GapText(gap) + rest) && (rest == "" || rest[0] == ';' || OpensLine(rest) || OpensBlock(rest))
    ensures a != "" && a[|a| - 1] == '-' && OpensLine(GapText(gap) + rest)
  {
    GapStart(gap, rest);
    hide GapText, GapOk;
  }

  /** A clean statement without its last minus. */
  lemma {:induction false} WithoutMinus(s: string, y: string)
    requires Clean(s) && s != "" && s[|s| - 1] == '-'
    ensures var t := s[..|s| - 1];
      QuoteAfter(t) == Plain && NoOpenSemicolon(t) && NoOpenComment(t) && Joins(t, "-" + y) && (t != "" ==> !IsSpace(t[0]))
  {
    var t := s[..|s| - 1];
    assert forall i :: 0 <= i < |t| ==> t[..i] == s[..i] && t[i] == s[i];
    forall i | 0 <= i < |t| && Outside(t, i) ensures !OpensComment(t[i..]) {
      assert Outside(s, i) && !OpensComment(s[i..]);
    }
    if t != "" {
      assert t[..|t| - 1] == s[..|t| - 1];
      assert t[|t| - 1] == '-' ==> Outside(s, |t| - 1);
      hide QuoteAfter, Outside;
      MinusAlone(s);
    }
  }

  /** Outside quotes, a text without comment does not end in two minuses. */
  lemma {:induction false} MinusAlone(s: string)
    requires NoOpenComment(s) && |s| >= 2 && s[|s| - 1] == '-'
    ensures Outside(s, |s| - 2) ==> s[|s| - 2] != '-'
  {
    assert s[|s| - 2..] == [s[|s| - 2], '-'];
  }

  lemma {:induction false} TrimAround(before: string, t: string, after: string)
    requires AllSpace(before) && AllSpace(after) && (t != "" ==> !IsSpace(t[0]))
    ensures Trim(before + t + after) == Trim(t)
  {
    if t == "" {
      assert before + t + after == before + "" + after;
      TrimInSpace(before, "", after);
      TrimTrimmed("");
    } else {
      assert before + t + after == before + (t + after);
      TrimStartSkips(before, t + after);
      TrimEndSkips(t, after);
    }
  }

  /** Behind a segment: the next one, or the end of the script. */
  ghost predicate Follows(rest: string, behind: string) {
    (behind == "" && (rest == "" || rest[0] == ';')) || (rest == behind && (OpensLine(rest) || OpensBlock(rest)))
  }

  lemma {:induction false} ClearBefore(g: Segment, rest: string, behind: string)
    requires Follows(rest, behind)
    ensures StandsClear(g, behind) <==> Joins(g.statement, GapText(g.after) + rest)
  {
    if GapText(g.after) == "" { assert GapText(g.after) + rest == rest && GapText(g.after) + behind == behind; }
  }

  lemma {:induction false} ScanWhole(s: string, rest: string, buf: string)
    requires NoOpenSemicolon(s) && NoOpenComment(s) && Joins(s, rest) && Balanced(s)
    ensures From(s + rest, Plain, buf) == From(rest, Plain, buf + s)
  {
    ScanStatement(s, 0, rest, buf);
    assert s[0..] == s && s[..0] == "" && buf + "" == buf;
  }

  /** The buffer after a statement and what stands behind it in the segment. */
  lemma {:induction false} ScanClear(g: Segment, rest: string, before: string) returns (buf: string)
    requires SegmentOk(g) && AllSpace(before) && Joins(g.statement, GapText(g.after) + rest)
    ensures Trim(buf) == g.statement && From(g.statement + (GapText(g.after) + rest), Plain, before) == From(rest, Plain, buf)
  {
    hide Joins, GapOk, GapText, From, Trim, Balanced, NoOpenSemicolon, NoOpenComment, IsTrimmed;
    ScanWhole(g.statement, GapText(g.after) + rest, before);
    var after := ScanGap(g.after, rest, before + g.statement);
    buf := before + g.statement + after;
    TrimInSpace(before, g.statement, after);
  }

  lemma {:induction false} ScanRunning(g: Segment, rest: string, before: string) returns (buf: string)
    requires SegmentOk(g) && AllSpace(before) && g.statement != "" && g.statement[|g.statement| - 1] == '-'
    requires OpensLine(GapText(g.after) + rest)
    ensures Trim(buf) == Trim(g.statement[..|g.statement| - 1])
    ensures From(g.statement + (GapText(g.after) + rest), Plain, before) == From(rest, Plain, buf)
  {
    var y, t := GapText(g.after) + rest, g.statement[..|g.statement| - 1];
    WithoutMinus(g.statement, y);
    MinusApart(g.statement, y);
    hide Joins, GapOk, GapText, From, Trim, NoOpenSemicolon, NoOpenComment, Clean, OpensLine;
    ScanWhole(t, "-" + y, before);
    ScanMinus(y, before + t);
    var after := ScanGap(g.after, rest, before + t);
    buf := before + t + after;
    TrimAround(before, t, after);
  }

  lemma {:induction false} MinusApart(s: string, y: string)
    requires s != "" && s[|s| - 1] == '-'
    ensures s + y == s[..|s| - 1] + ("-" + y)
  {
  }

  /** After its segment, the buffer holds what is kept of the statement, in white space. */
  lemma {:induction false} ScanSegment(g: Segment, rest: string, behind: string) returns (buf: string)
    requires SegmentOk(g) && Follows(rest, behind)
    ensures Trim(buf) == Kept(g, behind) && From(SegmentText(g) + rest, Plain, "") == From(rest, Plain, buf)
  {
    ClearBefore(g, rest, behind);
    SegmentApart(g, rest);
    hide GapText, From, Trim, Clean, Joins, SegmentText, StandsClear, OpensLine;
    var before := ScanGap(g.before, g.statement + (GapText(g.after) + rest), "");
    assert "" + before == before;
    if StandsClear(g, behind) {
      buf := ScanClear(g, rest, before);
    } else {
      RunsTogether(g.statement, g.after, rest);
      buf := ScanRunning(g, rest, before);
    }
  }

  lemma {:induction false} SegmentApart(g: Segment, rest: string)
    ensures SegmentText(g) + rest == GapText(g.before) + (g.statement + (GapText(g.after) + rest))
  {
    Regroup(GapText(g.before), g.statement, GapText(g.after), rest);
  }

  lemma {:induction false} Regroup(a: string, b: string, c: string, d: string)
    ensures a + b + c + d == a + (b + (c + d))
  {
  }

  /**
   What splitting makes of any script, whatever white space and comments stand around
   its statements and whatever comment is left open at the end: each statement comes
   back, less the minus it may lose to a line comment.
   */
  lemma {:induction false} SplitKeeps(segments: seq<Segment>, tail: string)
    requires ScriptOk(segments) && TailOk(tail)
    ensures Split(Script(segments, tail)) == KeptStatements(segments, tail)
  {
    hide SegmentOk, Kept, SegmentText;
    if segments == [] {
      ScanTail(tail, "");
    } else if |segments| == 1 {
      var buf := ScanSegment(segments[0], tail, tail);
      ScanTail(tail, buf);
      assert KeptStatements(segments[1..], tail) == [];
    } else {
      var more := Script(segments[1..], tail);
      SplitKeeps(segments[1..], tail);
      var buf := ScanSegment(segments[0], ";" + more, "");
      assert SegmentText(segments[0]) + (";" + more) == Script(segments, tail);
      ScanSemicolon(more, buf);
    }
  }

  function TotalLength(statements: seq<string>): nat { if statements == [] then 0 else |statements[0]| + TotalLength(statements[1..]) }

  lemma {:induction false} TotalLengthOf(first: string, rest: seq<string>)
    ensures TotalLength((if first == "" then [] else [first]) + rest) == |first| + TotalLength(rest)
  {
    if first == "" { assert [] + rest == rest; } else { assert ([first] + rest)[1..] == rest; }
  }

  lemma {:induction false} KeptIsShorter(g: Segment, behind: string)
    ensures |Kept(g, behind)| <= |g.statement| && (|Kept(g, behind)| == |g.statement| <==> StandsClear(g, behind))
  {
    if !StandsClear(g, behind) { var _, _ := TrimCuts(g.statement[..|g.statement| - 1]); }
  }

  lemma {:induction false} KeptLength(segments: seq<Segment>, tail: string)
    ensures TotalLength(KeptStatements(segments, tail)) <= TotalLength(Statements(segments))
    ensures TotalLength(KeptStatements(segments, tail)) == TotalLength(Statements(segments)) <==> AllStandClear(segments, tail)
    ensures AllStandClear(segments, tail) ==> KeptStatements(segments, tail) == Statements(segments)
  {
    hide TotalLength;
    if segments == [] {
    } else {
      var g, behind := segments[0], Behind(segments, tail);
      KeptLength(segments[1..], tail);
      KeptIsShorter(g, behind);
      TotalLengthOf(Kept(g, behind), KeptStatements(segments[1..], tail));
      TotalLengthOf(g.statement, Statements(segments[1..]));
    }
  }

  /** Splitting a script returns its statements if and only if none of them runs into a line comment with a last minus. */
  lemma {:induction false} SplitScript(segments: seq<Segment>, tail: string)
    requires ScriptOk(segments) && TailOk(tail)
    ensures Split(Script(segments, tail)) == Statements(segments) <==> AllStandClear(segments, tail)
  {
    SplitKeeps(segments, tail);
    KeptLength(segments, tail);
  }

  lemma {:induction false} ScanSemicolon(more: string, buf: string)
    ensures From(";" + more, Plain, buf) == Emit(buf) + Split(more)
  {
    assert (";" + more)[1..] == more;
  }

  function Join(statements: seq<string>): string {
    if statements == [] then ""
    else if |statements| == 1 then statements[0]
    else statements[0] + ";" + Join(statements[1..])
  }

  /** Splitting undoes joining: any list of clean, non-empty statements survives. */
  lemma {:induction false} SplitJoin(statements: seq<string>)
    requires forall i :: 0 <= i < |statements| ==> Clean(statements[i]) && statements[i] != ""
    ensures Split(Join(statements)) == statements
  {
    var segments := seq(|statements|, i requires 0 <= i < |statements| => Segment([], statements[i], []));
    JoinAsScript(statements, segments);
    SplitScript(segments, "");
  }

  lemma {:induction false} JoinAsScript(statements: seq<string>, segments: seq<Segment>)
    requires |segments| == |statements|
    requires forall i :: 0 <= i < |segments| ==> segments[i] == Segment([], statements[i], []) && statements[i] != ""
    ensures Script(segments, "") == Join(statements) && Statements(segments) == statements && AllStandClear(segments, "")
  {
    if statements != [] {
      assert SegmentText(segments[0]) == statements[0];
      assert SegmentText(segments[0]) + "" == statements[0];
      JoinAsScript(statements[1..], segments[1..]);
    }
  }

  // ---- every input ----

  /** What holds of a buffer while scanning. */
  ghost predicate Collected(buf: string, q: Quote) { QuoteAfter(buf) == q && NoOpenSemicolon(buf) }

  lemma {:induction false} CollectMore(buf: string, c: char)
    requires NoOpenSemicolon(buf) && (QuoteAfter(buf) == Plain ==> c != ';')
    ensures Collected(buf + [c], Toggle(QuoteAfter(buf), c))
  {
    var more := buf + [c];
    assert more[..|buf|] == buf;
    forall i | 0 <= i < |more| && Outside(more, i) ensures more[i] != ';' {
      if i < |buf| { assert more[..i] == buf[..i]; }
    }
  }

  lemma {:induction false} SpaceKeepsQuote(ws: string, s: string, i: nat)
    requires AllSpace(ws) && i <= |s|
    ensures QuoteAfter(ws + s[..i]) == QuoteAfter(s[..i])
  {
    if i > 0 {
      SpaceKeepsQuote(ws, s, i - 1);
      assert (ws + s[..i])[..|ws| + i - 1] == ws + s[..i - 1] && s[..i][..i - 1] == s[..i - 1];
    } else {
      SpaceIsPlain(ws);
      assert ws + s[..0] == ws;
    }
  }

  lemma {:induction false} SpaceIsPlain(ws: string)
    requires AllSpace(ws)
    ensures QuoteAfter(ws) == Plain
  {
    if ws != "" { SpaceIsPlain(ws[..|ws| - 1]); }
  }

  lemma {:induction false} TrimKeepsCollected(buf: string)
    requires NoOpenSemicolon(buf)
    ensures NoOpenSemicolon(Trim(buf)) && (Balanced(buf) ==> Balanced(Trim(buf)))
  {
    var before, after := TrimCuts(buf);
    var s := Trim(buf);
    forall i | 0 <= i < |s| && Outside(s, i) ensures s[i] != ';' {
      SpaceKeepsQuote(before, s, i);
      assert buf[..|before| + i] == before + s[..i];
      assert Outside(buf, |before| + i) && buf[|before| + i] == s[i];
    }
    SpaceKeepsQuote(before, s, |s|);
    assert s[..|s|] == s;
    QuoteAfterSpace(before + s, after);
  }

  lemma {:induction false} QuoteAfterSpace(s: string, ws: string)
    requires AllSpace(ws)
    ensures QuoteAfter(s + ws) == QuoteAfter(s)
  {
    if ws == "" {
      assert s + ws == s;
    } else {
      assert (s + ws)[..|s + ws| - 1] == s + ws[..|ws| - 1];
      QuoteAfterSpace(s, ws[..|ws| - 1]);
    }
  }

  /** A result: trimmed, not empty, without semicolon outside quotes; balanced unless it is the last one. */
  ghost predicate ResultOk(out: seq<string>) {
    && (forall i :: 0 <= i < |out| ==> out[i] != "" && IsTrimmed(out[i]) && NoOpenSemicolon(out[i]))
    && (forall i :: 0 <= i < |out| - 1 ==> Balanced(out[i]))
  }

  lemma {:induction false} EmitOk(buf: string)
    requires NoOpenSemicolon(buf)
    ensures ResultOk(Emit(buf)) && (Balanced(buf) && Emit(buf) != [] ==> Balanced(Emit(buf)[0]))
  {
    TrimKeepsCollected(buf);
    var _, _ := TrimCuts(buf);
  }

  lemma {:induction false} FromIsOk(s: string, q: Quote, buf: string)
    requires Collected(buf, q)
    ensures ResultOk(From(s, q, buf))
    decreases |s|
  {
    if s == "" {
      EmitOk(buf);
    } else if q == Plain && OpensLine(s) {
      FromIsOk(SkipLine(s[1..]), q, buf);
    } else if q == Plain && OpensBlock(s) {
      FromIsOk(SkipBlock(s[2..]), q, buf);
    } else if q == Plain && s[0] == ';' {
      EmitOk(buf);
      FromIsOk(s[1..], Plain, "");
    } else {
      CollectMore(buf, s[0]);
      FromIsOk(s[1..], Toggle(q, s[0]), buf + [s[0]]);
    }
  }

  /** Whatever the input, the statements are trimmed, non-empty and cut at every open semicolon. */
  lemma {:induction false} SplitIsOk(sql: string)
    ensures ResultOk(Split(sql))
  {
    FromIsOk(sql, Plain, "");
  }

  /** A statement that starts a text, before a semicolon. */
  lemma {:induction false} ScanFirst(s: string, more: string)
    requires Clean(s) && s != ""
    ensures Split(s + ";" + more) == [s] + Split(more)
  {
    ScanStatement(s, 0, ";" + more, "");
    assert s[0..] == s && s[..0] == "" && "" + s == s && s + ";" + more == s + (";" + more) && "" + "" == "";
    ScanSemicolon(more, s);
    TrimTrimmed(s);
  }

  /** Statements as the splitter gives them survive another round, if dropping comments has formed no new one. */
  lemma {:induction false} SplitJoinResult(out: seq<string>)
    requires ResultOk(out) && forall i :: 0 <= i < |out| ==> NoOpenComment(out[i])
    ensures Split(Join(out)) == out
  {
    hide NoOpenComment, NoOpenSemicolon, Balanced;
    if |out| == 1 {
      ScanStatement(out[0], 0, "", "");
      assert out[0][0..] + "" == out[0] && out[0][..0] == "" && "" + out[0] == out[0] && "" + "" == "";
      TrimTrimmed(out[0]);
    } else if out != [] {
      ScanFirst(out[0], Join(out[1..]));
      SplitJoinResult(out[1..]);
    }
  }

  /** Splitting never makes a text longer. */
  lemma {:induction false} NeverLonger(s: string, q: Quote, buf: string)
    ensures |Join(From(s, q, buf))| <= |buf| + |s|
    decreases |s|
  {
    if s == "" {
      var _, _ := TrimCuts(buf);
    } else if q == Plain && OpensLine(s) {
      NeverLonger(SkipLine(s[1..]), q, buf);
    } else if q == Plain && OpensBlock(s) {
      NeverLonger(SkipBlock(s[2..]), q, buf);
    } else if q == Plain && s[0] == ';' {
      var _, _ := TrimCuts(buf);
      NeverLonger(s[1..], Plain, "");
      if Emit(buf) == [] {
        assert Emit(buf) + Split(s[1..]) == Split(s[1..]);
      } else {
        assert (Emit(buf) + Split(s[1..]))[1..] == Split(s[1..]);
      }
    } else {
      NeverLonger(s[1..], Toggle(q, s[0]), buf + [s[0]]);
    }
  }

  /** With a comment open at `i`, splitting loses text. */
  lemma {:induction false} CommentIsLost(s: string, i: nat, k: nat, rest: string)
    requires NoOpenSemicolon(s) && k <= i < |s| && Outside(s, i) && OpensComment(s[i..])
    ensures |Join(From(s[k..] + rest, QuoteAfter(s[..k]), s[..k]))| < |s| + |rest|
    decreases |s| - k
  {
    var text, q := s[k..] + rest, QuoteAfter(s[..k]);
    assert text[..2] == s[k..][..2];
    if q == Plain && OpensLine(text) {
      NeverLonger(SkipLine(text[1..]), q, s[..k]);
    } else if q == Plain && OpensBlock(text) {
      NeverLonger(SkipBlock(text[2..]), q, s[..k]);
    } else {
      assert text[1..] == s[k + 1..] + rest && s[..k] + [s[k]] == s[..k + 1] && s[..k + 1][..k] == s[..k];
      assert q == Plain ==> Outside(s, k);
      CommentIsLost(s, i, k + 1, rest);
    }
  }

  lemma {:induction false} CommentChangesResult(out: seq<string>, j: nat)
    requires ResultOk(out) && j < |out| && !NoOpenComment(out[j])
    ensures Split(Join(out)) != out
  {
    var s := out[0];
    if !NoOpenComment(s) {
      var i :| 0 <= i < |s| && Outside(s, i) && OpensComment(s[i..]);
      var rest := if |out| == 1 then "" else ";" + Join(out[1..]);
      CommentIsLost(s, i, 0, rest);
      assert s[0..] + rest == Join(out) && s[..0] == "";
    } else {
      hide NoOpenComment, NoOpenSemicolon, Balanced;
      ScanFirst(s, Join(out[1..]));
      CommentChangesResult(out[1..], j - 1);
      assert s + ";" + Join(out[1..]) == Join(out);
      assert Split(Join(out))[1..] == Split(Join(out[1..]));
    }
  }

  ghost predicate AllClosed(out: seq<string>) { forall i :: 0 <= i < |out| ==> NoOpenComment(out[i]) }

  lemma {:induction false} SplitResultTwice(sql: string)
    ensures Split(Join(Split(sql))) == Split(sql) <==> AllClosed(Split(sql))
  {
    SplitIsOk(sql);
    if AllClosed(Split(sql)) {
      SplitJoinResult(Split(sql));
    } else {
      var j :| 0 <= j < |Split(sql)| && !NoOpenComment(Split(sql)[j]);
      CommentChangesResult(Split(sql), j);
    }
  }

  // ---- comments that bridge two characters ----

  /**
   Reading `s` on: is there a dropped block comment, or a run of them, directly between
   two kept characters that open a comment together? `last` is the last character kept
   of the statement, `dropped` whether a block comment was dropped since.
   */
  predicate Bridges(s: string, q: Quote, last: Option<char>, dropped: bool)
    decreases |s|
  {
    if s == "" then false
    else if q == Plain && OpensLine(s) then Bridges(SkipLine(s[1..]), q, last, dropped)
    else if q == Plain && OpensBlock(s) then Bridges(SkipBlock(s[2..]), q, last, true)
    else if q == Plain && s[0] == ';' then Bridges(s[1..], Plain, None, false)
    else (dropped && q == Plain && last.Some? && OpensComment([last.value, s[0]])) || Bridges(s[1..], Toggle(q, s[0]), Some(s[0]), false)
  }

  function LastOf(buf: string): Option<char> { if buf == "" then None else Some(buf[|buf| - 1]) }

  /** Without a dropped comment, the last kept character and the next one open none. */
  predicate NotOpening(s: string, q: Quote, last: Option<char>, dropped: bool) {
    !dropped && q == Plain && last.Some? && s != "" ==> !OpensComment([last.value, s[0]])
  }

  lemma {:induction false} TrimSameComments(buf: string)
    ensures NoOpenComment(Trim(buf)) <==> NoOpenComment(buf)
  {
    var before, after := TrimCuts(buf);
    var s, n := Trim(buf), |before|;
    forall i | 0 <= i <= |s| ensures QuoteAfter(buf[..n + i]) == QuoteAfter(s[..i]) {
      SpaceKeepsQuote(before, s, i);
      assert buf[..n + i] == before + s[..i];
    }
    if NoOpenComment(buf) {
      forall i | 0 <= i < |s| && Outside(s, i) ensures !OpensComment(s[i..]) {
        assert Outside(buf, n + i) && !OpensComment(buf[n + i..]);
      }
    } else {
      var m :| 0 <= m < |buf| && Outside(buf, m) && OpensComment(buf[m..]);
      assert !IsSpace(buf[m]) && !IsSpace(buf[m + 1]);
      assert forall k :: 0 <= k < |before| ==> buf[k] == before[k];
      assert forall k :: 0 <= k < |after| ==> buf[n + |s| + k] == after[k];
      assert n <= m && m + 1 < n + |s|;
      var i: nat := m - n;
      assert Outside(s, i) && OpensComment(s[i..]);
    }
  }

  /** Does a comment open at position `i`, outside the string literals? */
  predicate OpensAt(s: string, i: nat)
    requires i < |s|
  {
    Outside(s, i) && OpensComment(s[i..])
  }

  lemma {:induction false} MoreOpensBefore(buf: string, c: char, i: nat)
    requires i + 1 < |buf|
    ensures OpensAt(buf + [c], i) <==> OpensAt(buf, i)
  {
    var more := buf + [c];
    assert more[..i] == buf[..i];
    assert more[i..][0] == buf[i..][0] && more[i..][1] == buf[i..][1];
  }

  /** At the last character of the buffer: a comment opens if the next one completes it. */
  lemma {:induction false} MoreOpensLast(buf: string, c: char)
    requires buf != ""
    ensures var k := |buf| - 1;
      && !OpensAt(buf, k) && !OpensAt(buf + [c], k + 1)
      && (OpensAt(buf + [c], k) <==> QuoteAfter(buf) == Plain && OpensComment([buf[k], c]))
  {
    var k, more := |buf| - 1, buf + [c];
    assert more[..k] == buf[..k];
    assert more[k..] == [buf[k], c];
  }

  /** One more character opens a comment with the last one, or changes nothing. */
  lemma {:induction false} MoreOpens(buf: string, c: char)
    ensures NoOpenComment(buf + [c])
       <==> NoOpenComment(buf) && !(buf != "" && QuoteAfter(buf) == Plain && OpensComment([buf[|buf| - 1], c]))
  {
    var more := buf + [c];
    ClosedAt(buf);
    ClosedAt(more);
    hide OpensAt, NoOpenComment, OpensComment;
    if buf == "" {
      assert more == [c];
      OneOpensNothing(c);
    } else {
      MoreOpensLast(buf, c);
      forall i: nat | i + 1 < |buf| ensures OpensAt(more, i) <==> OpensAt(buf, i) { MoreOpensBefore(buf, c, i); }
    }
  }

  lemma {:induction false} ClosedAt(s: string)
    ensures NoOpenComment(s) <==> forall i: nat :: i < |s| ==> !OpensAt(s, i)
  {
    if NoOpenComment(s) {
      forall i: nat | i < |s| ensures !OpensAt(s, i) { assert Outside(s, i) ==> !OpensComment(s[i..]); }
    } else {
      var i :| 0 <= i < |s| && Outside(s, i) && OpensComment(s[i..]);
      assert OpensAt(s, i);
    }
  }

  lemma {:induction false} OneOpensNothing(c: char)
    ensures !OpensAt([c], 0) && NoOpenComment("")
  {
  }

  lemma {:induction false} EmitClosed(buf: string)
    ensures AllClosed(Emit(buf)) <==> NoOpenComment(buf)
  {
    TrimSameComments(buf);
    if Trim(buf) == "" { EmptyIsClosed(); } else { assert Emit(buf)[0] == Trim(buf); }
  }

  lemma {:induction false} ConcatClosed(a: seq<string>, b: seq<string>)
    ensures AllClosed(a + b) <==> AllClosed(a) && AllClosed(b)
  {
    var c, n := a + b, |a|;
    assert forall i :: 0 <= i < n ==> c[i] == a[i];
    assert forall i :: n <= i < |c| ==> c[i] == b[i - n];
    if AllClosed(c) {
      forall i | 0 <= i < |b| ensures NoOpenComment(b[i]) { assert c[n + i] == b[i]; }
    }
  }

  lemma {:induction false} SkipLineStart(s: string)
    ensures SkipLine(s) != "" ==> SkipLine(s)[0] == '\n'
  {
    if s != "" && s[0] != '\n' { SkipLineStart(s[1..]); }
  }

  /** The statements still to come hold a comment if and only if the buffer does, or a dropped comment bridges two characters. */
  lemma {:induction false} FromClosedExactly(s: string, q: Quote, buf: string, dropped: bool)
    requires QuoteAfter(buf) == q && NotOpening(s, q, LastOf(buf), dropped)
    ensures AllClosed(From(s, q, buf)) <==> NoOpenComment(buf) && !Bridges(s, q, LastOf(buf), dropped)
    decreases |s|
  {
    hide NoOpenComment, AllClosed;
    if s == "" {
      EmitClosed(buf);
    } else if q == Plain && OpensLine(s) {
      SkipLineStart(s[1..]);
      FromClosedExactly(SkipLine(s[1..]), q, buf, dropped);
    } else if q == Plain && OpensBlock(s) {
      FromClosedExactly(SkipBlock(s[2..]), q, buf, true);
    } else if q == Plain && s[0] == ';' {
      EmitClosed(buf);
      FromClosedExactly(s[1..], Plain, "", false);
      ConcatClosed(Emit(buf), From(s[1..], Plain, ""));
      EmptyIsClosed();
    } else {
      MoreOpens(buf, s[0]);
      NextNotOpening(s, q, buf);
      assert From(s, q, buf) == From(s[1..], Toggle(q, s[0]), buf + [s[0]]);
      hide From, QuoteAfter, OpensComment, Toggle;
      FromClosedExactly(s[1..], Toggle(q, s[0]), buf + [s[0]], false);
    }
  }

  lemma {:induction false} NextNotOpening(s: string, q: Quote, buf: string)
    requires s != "" && QuoteAfter(buf) == q && (q == Plain ==> !OpensComment(s))
    ensures QuoteAfter(buf + [s[0]]) == Toggle(q, s[0])
    ensures LastOf(buf + [s[0]]) == Some(s[0]) && NotOpening(s[1..], Toggle(q, s[0]), Some(s[0]), false)
  {
    assert (buf + [s[0]])[..|buf|] == buf;
  }

  lemma {:induction false} EmptyIsClosed()
    ensures NoOpenComment("")
  {
  }

  /**
   Splitting its own result changes nothing, if and only if no block comment dropped
   outside quotes stands between two kept characters that open a comment together.
   */
  lemma {:induction false} SplitTwice(sql: string)
    ensures Split(Join(Split(sql))) == Split(sql) <==> !Bridges(sql, Plain, None, false)
  {
    SplitResultTwice(sql);
    EmptyIsClosed();
    FromClosedExactly(sql, Plain, "", false);
  }

  lemma {:induction false} ScanPlain(s: string, buf: string)
    requires s != "" && !OpensComment(s) && s[0] != ';' && Toggle(Plain, s[0]) == Plain
    ensures From(s, Plain, buf) == From(s[1..], Plain, buf + [s[0]])
  {
  }

  lemma {:induction false} ScanEmptyBlock(rest: string, buf: string)
    ensures From("/**/" + rest, Plain, buf) == From(rest, Plain, buf)
  {
    assert ("/**/" + rest)[2..] == "*/" + rest && ("*/" + rest)[2..] == rest;
  }

  /** Dropping a comment between two minus signs forms a comment: the result no longer splits to itself. */
  lemma {:induction false} DroppingFormsComment()
    ensures Split("-" + ("/**/" + "-1")) == ["--1"] && Split("--1") == []
  {
    hide From, Trim;
    var first := "-" + ("/**/" + "-1");
    assert first[0] == '-' && first[1] == '/';
    ScanPlain(first, "");
    assert ("-" + ("/**/" + "-1"))[1..] == "/**/" + "-1" && "" + ['-'] == "-";
    ScanEmptyBlock("-1", "-");
    assert "-1"[0] == '-' && "-1"[1] == '1';
    ScanPlain("-1", "-");
    assert "-1"[1..] == "1" && "-" + ['-'] == "--";
    ScanPlain("1", "--");
    assert "1"[1..] == "" && "--" + ['1'] == "--1";
    ScanTail("", "--1");
    TrimTrimmed("--1");
    ScanTail("--1", "");
    TrimTrimmed("");
  }

  /** A statement that ends in a minus, and a line comment at once: the minus is lost to it. */
  lemma {:induction false} CommentTakesMinus()
    ensures var segments := [Segment([], "1-", [])];
      && Script(segments, "--") == "1---" && Statements(segments) == ["1-"] && Split("1---") == ["1"]
  {
    hide From, Trim;
    var g := Segment([], "1-", []);
    assert SegmentText(g) == "1-" && "1-" + "--" == "1---";
    assert Statements([g][1..]) == [] && ["1-"] + [] == ["1-"];
    assert "1---"[0] == '1' && "1---"[1..] == "---" && "" + ['1'] == "1";
    ScanPlain("1---", "");
    assert "---"[0] == '-' && "---"[1] == '-' && "---"[2] == '-';
    ScanTail("---", "1");
    TrimTrimmed("1");
  }

  /** The code points that trimming takes off: ECMA-262's white space and line terminators (sections 12.2 and 12.3). */
  predicate IsSpaceCode(code: int) {
    code in {9, 10, 11, 12, 13, 32, 160, 5760, 8232, 8233, 8239, 8287, 12288, 65279} || 8192 <= code <= 8202
  }

  /** A character around a text is trimmed off if and only if it is one of these. */
  lemma {:induction false} TrimmedExactly(c: char, text: string)
    requires IsTrimmed(text) && text != ""
    ensures Trim([c] + text + [c]) == (if IsSpaceCode(c as int) then text else [c] + text + [c])
  {
    if IsSpace(c) {
      TrimInSpace([c], text, [c]);
    } else {
      var whole := [c] + text + [c];
      assert whole[0] == c && whole[|whole| - 1] == c;
      TrimTrimmed(whole);
    }
  }
}
