/** `_apply` of runtimes/python/python/vignemale_cli/link.py: sets `app` in the
    `[tool.vignemale]` section of a pyproject.toml, by editing its lines. */
module LinkToml {
  import opened Text

  const NL: string := "\n"
  const HEADER: string := "[tool.vignemale]"

  // ---------------------------------------------------------------- lines

  /** The characters at which str.splitlines ends a line. */
  predicate IsBreak(c: char) {
    var n := c as int;
    10 <= n <= 13 || 28 <= n <= 30 || n == 0x85 || n == 0x2028 || n == 0x2029
  }

  /** \r\n is one line ending. */
  function BreakLen(t: string): (k: nat)
    requires t != ""
    ensures 1 <= k <= |t|
  {
    if t[0] == '\r' && |t| > 1 && t[1] == '\n' then 2 else 1
  }

  /** str.splitlines */
  function Lines(t: string): seq<string>
    decreases |t|
  {
    if t == "" then []
    else if IsBreak(t[0]) then [""] + Lines(t[BreakLen(t)..])
    else
      var rest := Lines(t[1..]);
      if rest == [] then [[t[0]]] else [[t[0]] + rest[0]] + rest[1..]
  }

  predicate EndsWithNewline(t: string) { t != "" && t[|t| - 1] == '\n' }

  predicate BreakFree(line: string) { forall i :: 0 <= i < |line| ==> !IsBreak(line[i]) }

  predicate AllBreakFree(ls: seq<string>) { forall i :: 0 <= i < |ls| ==> BreakFree(ls[i]) }

  /** Newline is the only line ending in the text. */
  predicate OnlyNewlines(t: string) { forall i :: 0 <= i < |t| && IsBreak(t[i]) ==> t[i] == '\n' }

  /** The lines, with an empty one at the end when the text ends with a newline. */
  function Parts(t: string): seq<string> {
    Lines(t) + if EndsWithNewline(t) then [""] else []
  }

  // ---------------------------------------------------------------- the section

  predicate IsHeader(line: string) { Strip(line) == HEADER }

  /** re.match(r"\s*\[", line) */
  predicate IsTable(line: string) { LStrip(line) != "" && LStrip(line)[0] == '[' }

  predicate StartsWith(s: string, p: string) { |p| <= |s| && s[..|p|] == p }

  /** re.match(r"\s*app\s*=", line) */
  predicate IsApp(line: string) {
    var r := LStrip(line);
    StartsWith(r, "app") && StartsWith(LStrip(r[3..]), "=")
  }

  /** What a line is to `_apply`.  A header opens a table too. */
  datatype Kind = Header | Table | App | Other

  function KindOf(line: string): Kind {
    if IsHeader(line) then Header else if IsTable(line) then Table else if IsApp(line) then App else Other
  }

  /** A way of telling what a line is; the results below hold for any that agrees with KindOf
      on the empty line, the header and app lines. */
  type Reader = string -> Kind

  function Kinds(ls: seq<string>, kind: Reader): (ks: seq<Kind>)
    ensures |ks| == |ls|
  {
    seq(|ls|, i requires 0 <= i < |ls| => kind(ls[i]))
  }

  predicate Understands(kind: Reader, app: string) {
    IsSlug(app) && kind("") == Other && kind(HEADER) == Header && kind(AppLine(app)) == App
  }

  predicate Is(k: Kind, sought: Kind) { k == sought || (sought.Table? && k.Header?) }

  /** The first index from i on where the sought kind is; the length if it is nowhere. */
  function First(ks: seq<Kind>, i: nat, sought: Kind): (r: nat)
    requires i <= |ks|
    ensures i <= r <= |ks| && (r < |ks| ==> Is(ks[r], sought))
    ensures forall j :: i <= j < r ==> !Is(ks[j], sought)
    decreases |ks| - i
  {
    if i == |ks| || Is(ks[i], sought) then i else First(ks, i + 1, sought)
  }

  function HeaderAt(ks: seq<Kind>): nat { First(ks, 0, Header) }

  predicate HasSection(ks: seq<Kind>) { HeaderAt(ks) < |ks| }

  /** Where the section ends: the next line that opens a table, or the end of the file. */
  function EndAt(ks: seq<Kind>): nat
    requires HasSection(ks)
  {
    First(ks, HeaderAt(ks) + 1, Table)
  }

  /** The section's first app line; at or beyond EndAt when the section has none. */
  function AppAt(ks: seq<Kind>): nat
    requires HasSection(ks)
  {
    First(ks, HeaderAt(ks) + 1, App)
  }

  predicate HasApp(ks: seq<Kind>)
    requires HasSection(ks)
  {
    AppAt(ks) < EndAt(ks)
  }

  function AppLine(app: string): string { "app = \"" + app + "\"" }

  function Edit(ls: seq<string>, line: string, kind: Reader): (r: seq<string>)
    requires HasSection(Kinds(ls, kind))
  {
    var ks := Kinds(ls, kind);
    if HasApp(ks) then ls[AppAt(ks) := line]
    else ls[..HeaderAt(ks) + 1] + [line] + ls[HeaderAt(ks) + 1..]
  }

  /** The text before a section that has to be created. */
  function Lead(text: string): string {
    var prefix := if EndsWithNewline(text) || text == "" then text else text + NL;
    if prefix != "" && !(|prefix| >= 2 && prefix[|prefix| - 2..] == "\n\n") then prefix + NL else prefix
  }

  /** The section that is created. */
  function Added(app: string): string { HEADER + NL + (AppLine(app) + NL) }

  /** `_apply` */
  function Apply(text: string, app: string, kind: Reader): string {
    var ls := Lines(text);
    if !HasSection(Kinds(ls, kind)) then Lead(text) + Added(app)
    else Join(Edit(ls, AppLine(app), kind), NL) + if EndsWithNewline(text) then NL else ""
  }

  /** The names `link` passes: lower-case letters, digits and dashes. */
  predicate IsSlug(app: string) {
    forall i :: 0 <= i < |app| ==> 'a' <= app[i] <= 'z' || '0' <= app[i] <= '9' || app[i] == '-'
  }

  // --------------------------------------------------------------- line lemmas

  lemma {:induction false} KindFacts(line: string)
    ensures Is(KindOf(line), Header) <==> IsHeader(line)
    ensures Is(KindOf(line), Table) <==> IsTable(line)
    ensures Is(KindOf(line), App) <==> IsApp(line)
  {
    if IsHeader(line) {
      RStripIsPrefix(LStrip(line));
      assert Strip(line)[0] == '[' == LStrip(line)[0];
    }
    if IsApp(line) { assert LStrip(line)[..3][0] == 'a' == LStrip(line)[0]; }
  }

  lemma {:induction false} AppLineFacts(app: string)
    requires IsSlug(app)
    ensures KindOf(AppLine(app)) == App && BreakFree(AppLine(app))
  {
    var line := AppLine(app);
    assert line[0] == 'a' && line[1] == 'p' && line[2] == 'p' && line[3] == ' ' && line[4] == '=';
    assert LStrip(line) == line;
    assert line[..3] == "app";
    assert line[3..][1..] == line[4..] && LStrip(line[3..]) == LStrip(line[4..]) == line[4..];
    assert line[4..][..1] == "=";
    KindFacts(line);
  }

  lemma {:induction false} HeaderFacts()
    ensures KindOf(HEADER) == Header && BreakFree(HEADER)
  {
    assert HEADER[0] == '[' && HEADER[|HEADER| - 1] == ']';
    assert LStrip(HEADER) == HEADER && RStrip(HEADER) == HEADER;
  }

  lemma {:induction false} EmptyLine()
    ensures KindOf("") == Other
  {}

  lemma {:induction false} KindsConcat(a: seq<string>, b: seq<string>, kind: Reader)
    ensures Kinds(a + b, kind) == Kinds(a, kind) + Kinds(b, kind)
  {}

  lemma {:induction false} FirstUnique(ks: seq<Kind>, i: nat, sought: Kind, r: nat)
    requires i <= r <= |ks| && (r < |ks| ==> Is(ks[r], sought))
    requires forall j :: i <= j < r ==> !Is(ks[j], sought)
    ensures First(ks, i, sought) == r
  {}

  /** The kinds after an edit. */
  function EditKinds(ks: seq<Kind>): seq<Kind>
    requires HasSection(ks)
  {
    if HasApp(ks) then ks else ks[..HeaderAt(ks) + 1] + [App] + ks[HeaderAt(ks) + 1..]
  }

  lemma {:induction false} KindsOfEdit(ls: seq<string>, line: string, kind: Reader)
    requires HasSection(Kinds(ls, kind)) && kind(line) == App
    ensures Kinds(Edit(ls, line, kind), kind) == EditKinds(Kinds(ls, kind))
  {
    var ks := Kinds(ls, kind);
    if HasApp(ks) {
      assert Kinds(ls[AppAt(ks) := line], kind) == ks;
    } else {
      KindsInsert(ls, HeaderAt(ks) + 1, line, kind);
    }
  }

  lemma {:induction false} KindsInsert(ls: seq<string>, k: nat, line: string, kind: Reader)
    requires k <= |ls|
    ensures Kinds(ls[..k] + [line] + ls[k..], kind) == Kinds(ls, kind)[..k] + [kind(line)] + Kinds(ls, kind)[k..]
  {}

  /** The edited section starts where it was and has an app line. */
  lemma {:induction false} EditIndices(ks: seq<Kind>)
    requires HasSection(ks)
    ensures var e := EditKinds(ks);
            && HasSection(e) && HeaderAt(e) == HeaderAt(ks) && HasApp(e)
            && AppAt(e) == if HasApp(ks) then AppAt(ks) else HeaderAt(ks) + 1
  {
    var e, h := EditKinds(ks), HeaderAt(ks);
    if !HasApp(ks) {
      FirstUnique(e, 0, Header, h);
      FirstUnique(e, h + 1, App, h + 1);
      assert EndAt(e) != h + 1;
    }
  }

  /** The last writer wins: a second edit undoes the first. */
  lemma {:induction false} EditTwice(ls: seq<string>, a: string, b: string, kind: Reader)
    requires HasSection(Kinds(ls, kind)) && kind(a) == App && kind(b) == App
    ensures HasSection(Kinds(Edit(ls, a, kind), kind)) && Edit(Edit(ls, a, kind), b, kind) == Edit(ls, b, kind)
  {
    KindsOfEdit(ls, a, kind);
    EditIndices(Kinds(ls, kind));
  }

  /** Only the app line changes: without it, the lines are those before the edit, in order. */
  lemma {:induction false} OtherLinesKept(ls: seq<string>, line: string, kind: Reader)
    requires HasSection(Kinds(ls, kind)) && kind(line) == App
    ensures HasSection(Kinds(Edit(ls, line, kind), kind))
    ensures var e, ks := Edit(ls, line, kind), Kinds(ls, kind); var k := AppAt(Kinds(e, kind));
            && k < |e| && e[k] == line
            && e[..k] + e[k + 1..] == if HasApp(ks) then ls[..k] + ls[k + 1..] else ls
  {
    KindsOfEdit(ls, line, kind);
    EditIndices(Kinds(ls, kind));
    if HasApp(Kinds(ls, kind)) {
      WithoutUpdated(ls, AppAt(Kinds(ls, kind)), line);
    } else {
      WithoutInserted(ls, HeaderAt(Kinds(ls, kind)) + 1, line);
    }
  }

  lemma {:induction false} WithoutUpdated(ls: seq<string>, k: nat, line: string)
    requires k < |ls|
    ensures ls[k := line][..k] + ls[k := line][k + 1..] == ls[..k] + ls[k + 1..]
  {}

  lemma {:induction false} WithoutInserted(ls: seq<string>, k: nat, line: string)
    requires k <= |ls|
    ensures var e := ls[..k] + [line] + ls[k..];
            k < |e| && e[k] == line && e[..k] + e[k + 1..] == ls
  {
    var e := ls[..k] + [line] + ls[k..];
    assert e[..k] == ls[..k] && e[k + 1..] == ls[k..];
  }

  // --------------------------------------------------------------- text lemmas

  lemma {:induction false} LinesAreBreakFree(t: string)
    ensures AllBreakFree(Lines(t))
    decreases |t|
  {
    if t != "" {
      if IsBreak(t[0]) { LinesAreBreakFree(t[BreakLen(t)..]); } else { LinesAreBreakFree(t[1..]); }
    }
  }

  lemma {:induction false} ShortLines(c: char)
    ensures Lines("") == [] && Lines(NL) == [""] && Lines("\r\n") == [""] && Lines("\r") == [""]
    ensures !IsBreak(c) ==> Lines([c]) == [[c]] && Lines([c] + NL) == [[c]]
  {
    assert NL[1..] == "" && "\r\n"[2..] == "" && [c][1..] == "" && ([c] + NL)[1..] == NL;
    assert [c] + "" == [c];
  }

  lemma {:induction false} LinesOfFirst(x: string, r: string)
    requires BreakFree(x)
    ensures Lines(x + NL + r) == [x] + Lines(r)
    ensures x != "" ==> Lines(x) == [x]
  {
    var t := x + NL + r;
    if x == "" {
      assert t == NL + r && t[1..] == r;
    } else {
      assert BreakFree(x[1..]) by { assert forall i :: 0 <= i < |x[1..]| ==> x[1..][i] == x[i + 1]; }
      LinesOfFirst(x[1..], r);
      assert t[1..] == x[1..] + NL + r;
      assert [x[0]] + x[1..] == x;
      assert ([x[1..]] + Lines(r))[1..] == Lines(r);
      if x[1..] == "" { ShortLines(x[0]); assert x == [x[0]]; }
    }
  }

  /** Break-free lines joined by newlines are read back as they are. */
  lemma {:induction false} PartsOfJoin(ls: seq<string>)
    requires AllBreakFree(ls) && ls != [] && ls != [""]
    ensures Parts(Join(ls, NL)) == ls
  {
    if |ls| == 1 {
      LinesOfFirst(ls[0], "");
      assert ls == [ls[0]] && !EndsWithNewline(ls[0]) by { assert !IsBreak(ls[0][|ls[0]| - 1]); }
    } else {
      var r := Join(ls[1..], NL);
      var t := ls[0] + NL + r;
      LinesOfFirst(ls[0], r);
      assert [ls[0]] + ls[1..] == ls;
      if ls[1..] == [""] {
        assert r == "" && EndsWithNewline(t);
      } else {
        PartsOfJoin(ls[1..]);
        JoinNotEmpty(ls[1..]);
        assert t[|t| - 1] == r[|r| - 1];
      }
    }
  }

  lemma {:induction false} JoinNotEmpty(ls: seq<string>)
    requires ls != [] && ls != [""]
    ensures Join(ls, NL) != ""
  {
    if |ls| == 1 { assert ls == [ls[0]]; }
  }

  lemma {:induction false} JoinOnlyNewlines(ls: seq<string>)
    requires AllBreakFree(ls)
    ensures OnlyNewlines(Join(ls, NL))
  {
    if |ls| > 1 { JoinOnlyNewlines(ls[1..]); }
  }

  /** A text whose only line ending is the newline is its parts, joined. */
  lemma {:induction false} JoinOfParts(t: string)
    requires OnlyNewlines(t) && t != ""
    ensures Join(Parts(t), NL) == t
    decreases |t|
  {
    var r := t[1..];
    assert OnlyNewlines(r) by { assert forall i :: 0 <= i < |r| ==> r[i] == t[i + 1]; }
    if r == "" {
      ShortLines(t[0]);
      assert t == [t[0]];
      assert Parts(t) == if t[0] == '\n' then ["", ""] else [t];
    } else {
      JoinOfParts(r);
      if t[0] == '\n' { PartsAfterNewline(t); } else { PartsPrepend(t); JoinPrepend(t[0], Parts(r)); }
    }
  }

  lemma {:induction false} PartsAfterNewline(t: string)
    requires |t| > 1 && t[0] == '\n'
    ensures Parts(t) == [""] + Parts(t[1..]) && Parts(t[1..]) != []
    ensures Join(Parts(t), NL) == NL + Join(Parts(t[1..]), NL)
  {
    assert Lines(t) == [""] + Lines(t[1..]);
    assert Parts(t)[1..] == Parts(t[1..]);
  }

  lemma {:induction false} PartsPrepend(t: string)
    requires |t| > 1 && !IsBreak(t[0])
    ensures Parts(t[1..]) != [] && Parts(t) == [[t[0]] + Parts(t[1..])[0]] + Parts(t[1..])[1..]
  {
    var rest := Lines(t[1..]);
    assert rest != [];
    assert Lines(t) == [[t[0]] + rest[0]] + rest[1..];
  }

  lemma {:induction false} JoinPrepend(c: char, ls: seq<string>)
    requires ls != []
    ensures Join([[c] + ls[0]] + ls[1..], NL) == [c] + Join(ls, NL)
  {
    var longer := [[c] + ls[0]] + ls[1..];
    assert longer[1..] == ls[1..];
  }

  lemma {:induction false} LinesAfterBreak(t: string)
    requires t != "" && IsBreak(t[0])
    ensures Lines(t) == [""] + Lines(t[BreakLen(t)..])
  {}

  lemma {:induction false} LinesAfterChar(t: string)
    requires t != "" && !IsBreak(t[0]) && Lines(t[1..]) != []
    ensures Lines(t) == Prepended(t[0], Lines(t[1..]))
  {}

  function Prepended(c: char, ls: seq<string>): seq<string>
    requires ls != []
  {
    [[c] + ls[0]] + ls[1..]
  }

  lemma {:induction false} PrependedConcat(c: char, a: seq<string>, b: seq<string>)
    requires a != []
    ensures Prepended(c, a + b) == Prepended(c, a) + b
  {
    assert (a + b)[1..] == a[1..] + b;
  }

  lemma {:induction false} LinesConcat(x: string, y: string)
    requires x == "" || EndsWithNewline(x)
    ensures Lines(x + y) == Lines(x) + Lines(y)
    decreases |x|
  {
    if x == "" {
      assert x + y == y;
    } else {
      var k := if IsBreak(x[0]) then BreakLen(x) else 1;
      var rest := x[k..];
      assert (x + y)[k..] == rest + y;
      assert rest == "" || rest[|rest| - 1] == x[|x| - 1];
      LinesConcat(rest, y);
      if IsBreak(x[0]) {
        assert BreakLen(x + y) == k;
        LinesAfterBreak(x);
        LinesAfterBreak(x + y);
        Assoc([""], Lines(rest), Lines(y));
      } else {
        assert rest != "" && Lines(rest) != [];
        LinesAfterChar(x);
        LinesAfterChar(x + y);
        PrependedConcat(x[0], Lines(rest), Lines(y));
      }
    }
  }

  lemma {:induction false} LinesWithNewline(t: string)
    ensures Lines(t + NL) == Lines(t) || Lines(t + NL) == Lines(t) + [""]
    decreases |t|
  {
    if t == "" {
      assert t + NL == NL;
      ShortLines('a');
    } else if t == "\r" {
      assert t + NL == "\r\n";
      ShortLines('a');
    } else {
      var k := if IsBreak(t[0]) then BreakLen(t) else 1;
      assert (t + NL)[k..] == t[k..] + NL;
      LinesWithNewline(t[k..]);
      if IsBreak(t[0]) {
        assert BreakLen(t + NL) == k;
      } else if t[1..] == "" {
        ShortLines(t[0]);
        assert t == [t[0]];
      } else {
        assert Lines(t[1..]) != [];
      }
    }
  }

  lemma {:induction false} NewlineKeepsNoSection(t: string, kind: Reader)
    requires kind("") == Other && !HasSection(Kinds(Lines(t), kind))
    ensures !HasSection(Kinds(Lines(t + NL), kind))
  {
    LinesWithNewline(t);
    NoHeaderWithEmpty(Lines(t), kind);
  }

  lemma {:induction false} LeadLines(text: string, kind: Reader)
    requires kind("") == Other && !HasSection(Kinds(Lines(text), kind))
    ensures Lead(text) == "" || EndsWithNewline(Lead(text))
    ensures !HasSection(Kinds(Lines(Lead(text)), kind))
    ensures text <= Lead(text)
    ensures OnlyNewlines(text) ==> OnlyNewlines(Lead(text))
  {
    NewlineKeepsNoSection(text, kind);
    NewlineKeepsNoSection(text + NL, kind);
  }

  lemma {:induction false} NoHeaderWithEmpty(ls: seq<string>, kind: Reader)
    requires kind("") == Other && !HasSection(Kinds(ls, kind))
    ensures !HasSection(Kinds(ls + [""], kind))
  {
    KindsWithEmpty(ls, kind);
    FirstUnique(Kinds(ls, kind) + [Other], 0, Header, |ls| + 1);
  }

  // ---------------------------------------------------------- the two branches

  lemma {:induction false} IndicesWithOther(ks: seq<Kind>)
    requires HasSection(ks)
    ensures HasSection(ks + [Other]) && HeaderAt(ks + [Other]) == HeaderAt(ks)
    ensures HasApp(ks + [Other]) <==> HasApp(ks)
    ensures HasApp(ks) ==> AppAt(ks + [Other]) == AppAt(ks)
  {
    var ms, h := ks + [Other], HeaderAt(ks);
    FirstUnique(ms, 0, Header, h);
    FirstUnique(ms, h + 1, Table, if EndAt(ks) < |ks| then EndAt(ks) else |ms|);
    FirstUnique(ms, h + 1, App, if AppAt(ks) < |ks| then AppAt(ks) else |ms|);
  }

  lemma {:induction false} KindsWithEmpty(ls: seq<string>, kind: Reader)
    requires kind("") == Other
    ensures Kinds(ls + [""], kind) == Kinds(ls, kind) + [Other]
  {
    KindsConcat(ls, [""], kind);
  }

  /** Adding an empty last line does not touch the section. */
  lemma {:induction false} EditWithEmptyEnd(ls: seq<string>, line: string, kind: Reader)
    requires kind("") == Other && HasSection(Kinds(ls, kind))
    ensures HasSection(Kinds(ls + [""], kind)) && Edit(ls + [""], line, kind) == Edit(ls, line, kind) + [""]
  {
    KindsWithEmpty(ls, kind);
    IndicesWithOther(Kinds(ls, kind));
    var h := HeaderAt(Kinds(ls, kind)) + 1;
    assert (ls + [""])[..h] == ls[..h] && (ls + [""])[h..] == ls[h..] + [""];
  }

  /** With a section, `_apply` edits the parts and joins them with newlines. */
  lemma {:induction false} ApplyWithSection(text: string, app: string, kind: Reader)
    requires HasSection(Kinds(Lines(text), kind)) && Understands(kind, app)
    ensures HasSection(Kinds(Parts(text), kind))
    ensures Apply(text, app, kind) == Join(Edit(Parts(text), AppLine(app), kind), NL)
    ensures Parts(Apply(text, app, kind)) == Edit(Parts(text), AppLine(app), kind)
    ensures OnlyNewlines(Apply(text, app, kind))
  {
    var ls, line := Lines(text), AppLine(app);
    EditWithEmptyEnd(ls, line, kind);
    if EndsWithNewline(text) {
      JoinConcat(Edit(ls, line, kind), [""], NL);
      JoinEmptyEnd(Edit(ls, line, kind));
    } else {
      assert Parts(text) == ls;
    }
    LinesAreBreakFree(text);
    EditIsPlain(Parts(text), app, kind);
    PartsOfJoin(Edit(Parts(text), line, kind));
    JoinOnlyNewlines(Edit(Parts(text), line, kind));
  }

  lemma {:induction false} JoinEmptyEnd(ls: seq<string>)
    ensures Join([""], NL) == "" && Join(ls, NL) + NL + "" == Join(ls, NL) + NL
  {}

  lemma {:induction false} EditIsPlain(ls: seq<string>, app: string, kind: Reader)
    requires HasSection(Kinds(ls, kind)) && AllBreakFree(ls) && Understands(kind, app)
    ensures var e := Edit(ls, AppLine(app), kind); AllBreakFree(e) && |e| >= 2
  {
    AppLineFacts(app);
    var e := Edit(ls, AppLine(app), kind);
    assert forall i :: 0 <= i < |e| ==> e[i] in ls || e[i] == AppLine(app);
  }

  /** Without one, the section is added after the text, and is there the next time. */
  lemma {:induction false} ApplyWithoutSection(text: string, app: string, kind: Reader)
    requires !HasSection(Kinds(Lines(text), kind)) && Understands(kind, app)
    ensures Lines(Apply(text, app, kind)) == Lines(Lead(text)) + [HEADER, AppLine(app)]
    ensures EndsWithNewline(Apply(text, app, kind))
  {
    LeadLines(text, kind);
    AddedLines(app);
    LinesConcat(Lead(text), Added(app));
  }

  lemma {:induction false} TwoLines(a: string, b: string)
    requires BreakFree(a) && BreakFree(b)
    ensures var t := a + NL + (b + NL);
            Lines(t) == [a, b] && EndsWithNewline(t) && OnlyNewlines(t)
  {
    LinesOfFirst(a, b + NL);
    LinesOfFirst(b, "");
    assert b + NL + "" == b + NL;
    ShortLines('a');
  }

  lemma {:induction false} AddedLines(app: string)
    requires IsSlug(app)
    ensures Lines(Added(app)) == [HEADER, AppLine(app)]
    ensures EndsWithNewline(Added(app)) && OnlyNewlines(Added(app))
  {
    AppLineFacts(app);
    HeaderFacts();
    TwoLines(HEADER, AppLine(app));
  }

  lemma {:induction false} SectionAdded(ks: seq<Kind>)
    requires !HasSection(ks)
    ensures var e := ks + [Header, App, Other];
            HasSection(e) && HeaderAt(e) == |ks| && HasApp(e) && AppAt(e) == |ks| + 1
  {
    var e := ks + [Header, App, Other];
    FirstUnique(e, 0, Header, |ks|);
    FirstUnique(e, |ks| + 1, App, |ks| + 1);
    FirstUnique(e, |ks| + 1, Table, |e|);
  }

  /** The parts of a text to which a section was added, and their edit. */
  lemma {:induction false} AddedSection(text: string, a: string, b: string, kind: Reader)
    requires !HasSection(Kinds(Lines(text), kind)) && Understands(kind, a) && Understands(kind, b)
    ensures HasSection(Kinds(Parts(Apply(text, a, kind)), kind))
    ensures Parts(Apply(text, a, kind)) == Lines(Lead(text)) + [HEADER, AppLine(a), ""]
    ensures Edit(Parts(Apply(text, a, kind)), AppLine(b), kind) == Lines(Lead(text)) + [HEADER, AppLine(b), ""]
  {
    ApplyWithoutSection(text, a, kind);
    LeadLines(text, kind);
    AddedParts(Lines(Lead(text)), a, b, kind);
    assert Lines(Lead(text)) + [HEADER, AppLine(a)] + [""] == Lines(Lead(text)) + [HEADER, AppLine(a), ""];
  }

  lemma {:induction false} AddedParts(xs: seq<string>, a: string, b: string, kind: Reader)
    requires !HasSection(Kinds(xs, kind)) && Understands(kind, a)
    ensures var ps := xs + [HEADER, AppLine(a), ""];
            && HasSection(Kinds(ps, kind)) && Edit(ps, AppLine(b), kind) == xs + [HEADER, AppLine(b), ""]
  {
    var added := [HEADER, AppLine(a), ""];
    KindsConcat(xs, added, kind);
    assert Kinds(added, kind) == [Header, App, Other];
    SectionAdded(Kinds(xs, kind));
  }

  // ---------------------------------------------------------- main theorems

  lemma {:induction false} WinsWithSection(text: string, a: string, b: string, kind: Reader)
    requires Understands(kind, a) && Understands(kind, b) && HasSection(Kinds(Lines(text), kind))
    ensures Apply(Apply(text, a, kind), b, kind) == Apply(text, b, kind)
  {
    ApplyWithSection(text, a, kind);
    ApplyWithSection(text, b, kind);
    EditTwice(Parts(text), AppLine(a), AppLine(b), kind);
    SectionInParts(Apply(text, a, kind), kind);
    ApplyWithSection(Apply(text, a, kind), b, kind);
  }

  lemma {:induction false} WinsWithoutSection(text: string, a: string, b: string, kind: Reader)
    requires Understands(kind, a) && Understands(kind, b) && !HasSection(Kinds(Lines(text), kind)) && OnlyNewlines(text)
    ensures Apply(Apply(text, a, kind), b, kind) == Apply(text, b, kind)
  {
    AddedSection(text, a, b, kind);
    SectionInParts(Apply(text, a, kind), kind);
    ApplyWithSection(Apply(text, a, kind), b, kind);
    ApplyAsJoin(text, b, kind);
  }

  lemma {:induction false} LosesLineEndings(text: string, a: string, b: string, kind: Reader)
    requires Understands(kind, a) && Understands(kind, b) && !HasSection(Kinds(Lines(text), kind)) && !OnlyNewlines(text)
    ensures Apply(Apply(text, a, kind), b, kind) != Apply(text, b, kind)
  {
    AddedSection(text, a, b, kind);
    SectionInParts(Apply(text, a, kind), kind);
    ApplyWithSection(Apply(text, a, kind), b, kind);
    LeadLines(text, kind);
    var i :| 0 <= i < |text| && IsBreak(text[i]) && text[i] != '\n';
    assert Lead(text)[i] == text[i];
    assert Apply(text, b, kind)[i] == Lead(text)[i];
  }

  lemma {:induction false} SectionInParts(t: string, kind: Reader)
    requires kind("") == Other && HasSection(Kinds(Parts(t), kind))
    ensures HasSection(Kinds(Lines(t), kind))
  {
    assert EndsWithNewline(t) || Parts(t) == Lines(t);
    if !HasSection(Kinds(Lines(t), kind)) { NoHeaderWithEmpty(Lines(t), kind); }
  }

  lemma {:induction false} ApplyAsJoin(text: string, b: string, kind: Reader)
    requires !HasSection(Kinds(Lines(text), kind)) && Understands(kind, b) && OnlyNewlines(text)
    ensures Apply(text, b, kind) == Join(Lines(Lead(text)) + [HEADER, AppLine(b), ""], NL)
  {
    LeadLines(text, kind);
    AddedLines(b);
    AddedSection(text, b, b, kind);
    NewlinesConcat(Lead(text), Added(b));
    JoinOfParts(Apply(text, b, kind));
  }

  lemma {:induction false} NewlinesConcat(a: string, b: string)
    requires OnlyNewlines(a) && OnlyNewlines(b)
    ensures OnlyNewlines(a + b)
  {}

  lemma {:induction false} AppLineFirst(text: string, app: string, kind: Reader)
    requires Understands(kind, app)
    ensures var ls := Lines(Apply(text, app, kind)); var ks := Kinds(ls, kind);
            HasSection(ks) && HasApp(ks) && ls[AppAt(ks)] == AppLine(app)
  {
    var line, out := AppLine(app), Apply(text, app, kind);
    if HasSection(Kinds(Lines(text), kind)) {
      ApplyWithSection(text, app, kind);
      OtherLinesKept(Parts(text), line, kind);
      KindsOfEdit(Parts(text), line, kind);
      EditIndices(Kinds(Parts(text), kind));
    } else {
      AddedSection(text, app, app, kind);
      OtherLinesKept(Parts(out), line, kind);
      KindsOfEdit(Parts(out), line, kind);
      EditIndices(Kinds(Parts(out), kind));
    }
    SectionInParts(out, kind);
    AppInParts(out, kind);
  }

  lemma {:induction false} AppInParts(t: string, kind: Reader)
    requires kind("") == Other && HasSection(Kinds(Lines(t), kind))
    ensures var ls, ps := Kinds(Lines(t), kind), Kinds(Parts(t), kind);
            && HasSection(ps) && (HasApp(ps) <==> HasApp(ls))
            && (HasApp(ls) ==> AppAt(ps) == AppAt(ls) && Parts(t)[AppAt(ps)] == Lines(t)[AppAt(ls)])
  {
    if EndsWithNewline(t) {
      KindsWithEmpty(Lines(t), kind);
      IndicesWithOther(Kinds(Lines(t), kind));
    } else {
      assert Parts(t) == Lines(t);
    }
  }

  /** The last line, an empty one unlike the one after a final newline. */
  predicate LastLineIsEmpty(ls: seq<string>) { ls != [] && ls[|ls| - 1] == "" }

  lemma {:induction false} EndKept(text: string, app: string, kind: Reader)
    requires Understands(kind, app) && HasSection(Kinds(Lines(text), kind))
    ensures EndsWithNewline(Apply(text, app, kind)) <==> EndsWithNewline(text) || LastLineIsEmpty(Lines(text))
  {
    var ls := Lines(text);
    var joined := Join(Edit(ls, AppLine(app), kind), NL);
    EndsAfterJoin(joined);
    if !EndsWithNewline(text) {
      LinesAreBreakFree(text);
      if LastLineIsEmpty(ls) {
        EditKeepsEmptyEnd(ls, app, kind);
      } else {
        EditKeepsEnd(ls, app, kind);
      }
    }
  }

  lemma {:induction false} EditKeepsEmptyEnd(ls: seq<string>, app: string, kind: Reader)
    requires HasSection(Kinds(ls, kind)) && Understands(kind, app) && LastLineIsEmpty(ls)
    ensures EndsWithNewline(Join(Edit(ls, AppLine(app), kind), NL))
  {
    var ks := Kinds(ls, kind);
    assert ks[|ls| - 1] == Other;
    assert HeaderAt(ks) < |ls| - 1;
    JoinEmptyLast(Edit(ls, AppLine(app), kind));
  }

  lemma {:induction false} JoinEmptyLast(ls: seq<string>)
    requires |ls| >= 2 && ls[|ls| - 1] == ""
    ensures EndsWithNewline(Join(ls, NL))
  {
    var r := Join(ls[1..], NL);
    if |ls| == 2 {
      assert Join(ls, NL) == (ls[0] + NL) + r && r == "";
    } else {
      JoinEmptyLast(ls[1..]);
      assert Join(ls, NL)[|Join(ls, NL)| - 1] == r[|r| - 1];
    }
  }

  lemma {:induction false} EndsAfterJoin(t: string)
    ensures EndsWithNewline(t + NL) && t + "" == t
  {}

  lemma {:induction false} EditKeepsEnd(ls: seq<string>, app: string, kind: Reader)
    requires HasSection(Kinds(ls, kind)) && Understands(kind, app) && AllBreakFree(ls) && ls[|ls| - 1] != ""
    ensures !EndsWithNewline(Join(Edit(ls, AppLine(app), kind), NL))
  {
    EditIsPlain(ls, app, kind);
    EditEnd(ls, AppLine(app), kind);
    JoinEnd(Edit(ls, AppLine(app), kind));
  }

  lemma {:induction false} EditEnd(ls: seq<string>, line: string, kind: Reader)
    requires HasSection(Kinds(ls, kind)) && line != "" && ls[|ls| - 1] != ""
    ensures var e := Edit(ls, line, kind); e[|e| - 1] != ""
  {}

  lemma {:induction false} LastLine(t: string)
    requires OnlyNewlines(t) && t != "" && !EndsWithNewline(t)
    ensures Lines(t) != [] && Lines(t)[|Lines(t)| - 1] != ""
    decreases |t|
  {
    var r := t[1..];
    assert OnlyNewlines(r) by { assert forall i :: 0 <= i < |r| ==> r[i] == t[i + 1]; }
    if r != "" {
      assert r[|r| - 1] == t[|t| - 1];
      LastLine(r);
    }
  }

  lemma {:induction false} JoinEnd(ls: seq<string>)
    requires AllBreakFree(ls) && ls != [] && ls[|ls| - 1] != ""
    ensures Join(ls, NL) != "" && !EndsWithNewline(Join(ls, NL))
  {
    if |ls| == 1 {
      assert !IsBreak(ls[0][|ls[0]| - 1]);
    } else {
      JoinEnd(ls[1..]);
      var r := Join(ls[1..], NL);
      assert Join(ls, NL)[|Join(ls, NL)| - 1] == r[|r| - 1];
    }
  }

  // ----------------------------------------------- main theorems, for `_apply`

  lemma {:induction false} KindOfUnderstands(app: string)
    requires IsSlug(app)
    ensures Understands(KindOf, app)
  {
    AppLineFacts(app);
    HeaderFacts();
    EmptyLine();
  }

  /** The file has the section. */
  predicate HasToolSection(text: string) { HasSection(Kinds(Lines(text), KindOf)) }

  /** `_apply` is idempotent and the last writer wins, exactly for the texts that have the
      section already or whose only line ending is the newline.  (Creating a section keeps
      the text as it is; the next call rewrites all line endings.) */
  lemma {:induction false} LastWriterWins(text: string, a: string, b: string)
    requires IsSlug(a) && IsSlug(b)
    ensures Apply(Apply(text, a, KindOf), b, KindOf) == Apply(text, b, KindOf) <==> HasToolSection(text) || OnlyNewlines(text)
  {
    KindOfUnderstands(a);
    KindOfUnderstands(b);
    if HasToolSection(text) {
      WinsWithSection(text, a, b, KindOf);
    } else if OnlyNewlines(text) {
      WinsWithoutSection(text, a, b, KindOf);
    } else {
      LosesLineEndings(text, a, b, KindOf);
    }
  }

  /** The name between the quotes of an app line. */
  function NameIn(line: string): string {
    if |line| >= 8 then line[7..|line| - 1] else ""
  }

  /** After `_apply`, on any text, the first app line of the section reads back as the name. */
  lemma {:induction false} ReadsBack(text: string, app: string)
    requires IsSlug(app)
    ensures var ls := Lines(Apply(text, app, KindOf)); var ks := Kinds(ls, KindOf);
            HasSection(ks) && HasApp(ks) && NameIn(ls[AppAt(ks)]) == app
  {
    KindOfUnderstands(app);
    AppLineFirst(text, app, KindOf);
    assert NameIn(AppLine(app)) == app;
  }

  /** i is the first index from `from` on with a line of this kind before `to`, or it is `to`. */
  ghost predicate FirstLine(ls: seq<string>, from: nat, to: nat, i: nat, sought: string -> bool) {
    && from <= i <= to <= |ls| && (i < to ==> sought(ls[i])) && forall j :: from <= j < i ==> !sought(ls[j])
  }

  lemma {:induction false} SectionBounds(ls: seq<string>) returns (header: nat, end: nat, k: nat)
    ensures header == HeaderAt(Kinds(ls, KindOf)) && FirstLine(ls, 0, |ls|, header, line => Strip(line) == "[tool.vignemale]")
    ensures header < |ls| ==>
              && FirstLine(ls, header + 1, |ls|, end, l => LStrip(l) != "" && LStrip(l)[0] == '[')
              && FirstLine(ls, header + 1, end, k, l => IsApp(l))
              && (HasApp(Kinds(ls, KindOf)) <==> k < end) && (k < end ==> k == AppAt(Kinds(ls, KindOf)))
  {
    var ks := Kinds(ls, KindOf);
    forall i | 0 <= i < |ls|
      ensures Is(ks[i], Header) <==> Strip(ls[i]) == "[tool.vignemale]"
      ensures Is(ks[i], Table) <==> LStrip(ls[i]) != "" && LStrip(ls[i])[0] == '['
      ensures Is(ks[i], App) <==> IsApp(ls[i])
    {
      KindFacts(ls[i]);
    }
    header, end, k := HeaderAt(ks), 0, 0;
    if header < |ls| {
      end := EndAt(ks);
      k := if AppAt(ks) < end then AppAt(ks) else end;
    }
  }

  /** The edit line by line.  Without a line that is [tool.vignemale] up to white space, the section
      with the app line comes after the text.  Otherwise the section is the first one, and ends at
      the next line that opens a table; its first app line is replaced, or without one the new line
      comes directly after the header. */
  lemma {:induction false} AppliesExactly(text: string, app: string) returns (header: nat, end: nat, k: nat)
    ensures FirstLine(Lines(text), 0, |Lines(text)|, header, line => Strip(line) == "[tool.vignemale]")
    ensures header == |Lines(text)| ==>
              Apply(text, app, KindOf) == Lead(text) + ("[tool.vignemale]" + "\n" + (("app = \"" + app + "\"") + "\n"))
    ensures header < |Lines(text)| ==>
              var ls, line := Lines(text), "app = \"" + app + "\"";
              && FirstLine(ls, header + 1, |ls|, end, l => LStrip(l) != "" && LStrip(l)[0] == '[')
              && FirstLine(ls, header + 1, end, k, l => IsApp(l))
              && Apply(text, app, KindOf)
                 == Join(if k < end then ls[k := line] else ls[..header + 1] + [line] + ls[header + 1..], "\n")
                    + if text != "" && text[|text| - 1] == '\n' then "\n" else ""
  {
    header, end, k := SectionBounds(Lines(text));
  }

  /** An app line may be indented, and may have white space before the equals sign. */
  lemma {:induction false} AppLineForms(indent: string, space: string, rest: string)
    requires (forall i :: 0 <= i < |indent| ==> IsSpace(indent[i])) && forall i :: 0 <= i < |space| ==> IsSpace(space[i])
    ensures IsApp(indent + ("app" + (space + ("=" + rest))))
  {
    var value := "=" + rest;
    var word := "app" + (space + value);
    SpacesStripped(space, value);
    SpacesStripped(indent, word);
    assert word[..3] == "app" && word[3..] == space + value && value[..1] == "=";
  }

  lemma {:induction false} SpacesStripped(space: string, rest: string)
    requires (forall i :: 0 <= i < |space| ==> IsSpace(space[i])) && rest != "" && !IsSpace(rest[0])
    ensures LStrip(space + rest) == rest
  {
    if space == "" {
      assert space + rest == rest;
    } else {
      assert (space + rest)[1..] == space[1..] + rest;
      SpacesStripped(space[1..], rest);
    }
  }

  /** Without the section, the text stays as it is, and the section comes after it, behind a
      blank line. */
  lemma {:induction false} SectionComesAfter(text: string, app: string)
    requires !HasToolSection(text)
    ensures var r := Apply(text, app, KindOf);
            && text <= r && |r| >= |Added(app)| && r[|r| - |Added(app)|..] == Added(app)
            && var lead := r[..|r| - |Added(app)|];
               (text == "" && lead == "") || (|lead| >= 2 && lead[|lead| - 2..] == "\n\n" && |lead| <= |text| + 2)
  {
    var lead := Lead(text);
    assert Apply(text, app, KindOf) == lead + Added(app);
    assert (lead + Added(app))[..|lead|] == lead;
  }

  /** When the section exists, the edited text ends in a newline exactly when the text did, or
      when its last line is an empty one without a newline (after "\r\r", say). */
  lemma {:induction false} FinalNewlineExactly(text: string, app: string)
    requires IsSlug(app) && HasToolSection(text)
    ensures EndsWithNewline(Apply(text, app, KindOf)) <==> EndsWithNewline(text) || LastLineIsEmpty(Lines(text))
  {
    KindOfUnderstands(app);
    EndKept(text, app, KindOf);
  }

  /** So with newlines as the only line endings the end of the file stays as it was. */
  lemma {:induction false} FinalNewlineKept(text: string, app: string)
    requires IsSlug(app) && HasToolSection(text) && OnlyNewlines(text)
    ensures EndsWithNewline(Apply(text, app, KindOf)) <==> EndsWithNewline(text)
  {
    FinalNewlineExactly(text, app);
    if !EndsWithNewline(text) { LastLine(text); }
  }

  // ---------------------------------------------------------------- the code

  lemma {:induction false} LeadIs(text: string, prefix: string, sep: string)
    requires prefix == if EndsWithNewline(text) || text == "" then text else text + NL
    requires sep == if prefix != "" && !(|prefix| >= 2 && prefix[|prefix| - 2..] == "\n\n") then NL else ""
    ensures prefix + sep == Lead(text)
  {}

  /** The first loop of `_apply`: where the section starts. */
  method FindHeader(lines: seq<string>, kind: Reader) returns (start: nat)
    ensures start == HeaderAt(Kinds(lines, kind))
  {
    ghost var ks := Kinds(lines, kind);
    start := 0;
    while start < |lines| && !Is(kind(lines[start]), Header)
      invariant 0 <= start <= |lines| && forall j :: 0 <= j < start ==> !Is(ks[j], Header)
    {
      start := start + 1;
    }
    FirstUnique(ks, 0, Header, start);
  }

  /** The other two loops: find the end of the section, then replace its app line, or insert
      one after the header. */
  method EditSection(lines: seq<string>, start: nat, line: string, kind: Reader) returns (r: seq<string>)
    requires start < |lines| && start == HeaderAt(Kinds(lines, kind))
    ensures r == Edit(lines, line, kind)
  {
    ghost var ks := Kinds(lines, kind);
    var end := start + 1;
    while end < |lines| && !Is(kind(lines[end]), Table)
      invariant start < end <= |lines| && forall j :: start < j < end ==> !Is(ks[j], Table)
    {
      end := end + 1;
    }
    FirstUnique(ks, start + 1, Table, end);
    for k := start + 1 to end
      invariant forall j :: start < j < k ==> !Is(ks[j], App)
    {
      if Is(kind(lines[k]), App) {
        FirstUnique(ks, start + 1, App, k);
        return lines[k := line];
      }
    }
    return lines[..start + 1] + [line] + lines[start + 1..];
  }

  /** `_apply`, as it runs. */
  method ApplyText(text: string, app: string) returns (r: string)
    ensures r == Apply(text, app, KindOf)
  {
    var lines := Lines(text);
    var start := FindHeader(lines, KindOf);
    if start == |lines| {
      var prefix := if EndsWithNewline(text) || text == "" then text else text + NL;
      var sep := if prefix != "" && !(|prefix| >= 2 && prefix[|prefix| - 2..] == "\n\n") then NL else "";
      LeadIs(text, prefix, sep);
      return prefix + sep + Added(app);
    }
    lines := EditSection(lines, start, AppLine(app), KindOf);
    return Join(lines, NL) + if EndsWithNewline(text) then NL else "";
  }
}
