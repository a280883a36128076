/** `chunk_text` of examples/corpus/embedding.py: paragraphs, grouped greedily. */
module Chunking {
  import opened Text

  const BLANK: string := "\n\n"

  predicate AllSpace(s: string) { forall i :: 0 <= i < |s| ==> IsSpace(s[i]) }

  lemma {:induction false} AllSpaceConcat(a: string, b: string)
    ensures AllSpace(a + b) <==> AllSpace(a) && AllSpace(b)
  {
    if AllSpace(a + b) {
      assert forall i :: 0 <= i < |a| ==> a[i] == (a + b)[i];
      assert forall i :: 0 <= i < |b| ==> b[i] == (a + b)[|a| + i];
    }
  }

  // ------------------------------------------------------------- paragraphs

  /** The longest prefix of white space that ends in a newline (0: there is none). */
  function NewlineRun(t: string): (n: nat)
    ensures n <= |t|
  {
    if t == "" || !IsSpace(t[0]) then 0
    else
      var k := NewlineRun(t[1..]);
      if k > 0 then k + 1 else if t[0] == '\n' then 1 else 0
  }

  /** The length of the match of \n\s*\n at the start of t (0: no match). */
  function SepLen(t: string): (n: nat)
    ensures n <= |t|
  {
    if t != "" && t[0] == '\n' && NewlineRun(t[1..]) > 0 then 1 + NewlineRun(t[1..]) else 0
  }

  /** re.split(r"\n\s*\n", text) */
  function Pieces(t: string): (r: seq<string>)
    ensures |r| >= 1
    decreases |t|
  {
    if t == "" then [""]
    else if SepLen(t) > 0 then [""] + Pieces(t[SepLen(t)..])
    else
      var rest := Pieces(t[1..]);
      [[t[0]] + rest[0]] + rest[1..]
  }

  function Nonblank(pieces: seq<string>): seq<string> {
    if pieces == [] then []
    else (if Strip(pieces[0]) == "" then [] else [Strip(pieces[0])]) + Nonblank(pieces[1..])
  }

  /** The list comprehension at the head of chunk_text. */
  function Paras(text: string): seq<string> { Nonblank(Pieces(text)) }

  /** The regular expression, independently of how a match is found. */
  predicate IsSeparator(p: string) {
    |p| >= 2 && p[0] == '\n' && p[|p| - 1] == '\n' && AllSpace(p)
  }

  lemma {:induction false} NewlineRunIsLongest(t: string, n: nat)
    requires n <= |t|
    ensures var k := NewlineRun(t);
            && (k > 0 ==> t[k - 1] == '\n' && AllSpace(t[..k]))
            && (n > 0 && t[n - 1] == '\n' && AllSpace(t[..n]) ==> n <= k)
  {
    if t != "" {
      var k := NewlineRun(t);
      if IsSpace(t[0]) { NewlineRunIsLongest(t[1..], if n > 0 then n - 1 else 0); }
      if k > 0 {
        assert t[..k] == [t[0]] + t[1..][..k - 1];
        AllSpaceConcat([t[0]], t[1..][..k - 1]);
      }
      if n > 0 {
        assert t[..n] == [t[0]] + t[1..][..n - 1];
        AllSpaceConcat([t[0]], t[1..][..n - 1]);
        assert AllSpace([t[0]]) ==> IsSpace([t[0]][0]);
      }
    }
  }

  /** SepLen finds the longest match of the regular expression at the start. */
  lemma {:induction false} SepLenIsGreedyMatch(t: string, n: nat)
    requires n <= |t|
    ensures SepLen(t) > 0 ==> IsSeparator(t[..SepLen(t)])
    ensures IsSeparator(t[..n]) ==> n <= SepLen(t)
  {
    var k := SepLen(t);
    if k > 0 {
      NewlineRunIsLongest(t[1..], 0);
      assert t[..k] == [t[0]] + t[1..][..k - 1];
      AllSpaceConcat([t[0]], t[1..][..k - 1]);
    }
    if IsSeparator(t[..n]) {
      NewlineRunIsLongest(t[1..], n - 1);
      assert t[..n] == [t[0]] + t[1..][..n - 1];
      AllSpaceConcat([t[0]], t[1..][..n - 1]);
      assert t[..n][n - 1] == t[1..][n - 2];
    }
  }

  // ------------------------------------------------------ the visible characters

  /** The text without its white space. */
  function Visible(s: string): string {
    if s == "" then "" else (if IsSpace(s[0]) then "" else [s[0]]) + Visible(s[1..])
  }

  function VisibleAll(parts: seq<string>): string {
    if parts == [] then "" else Visible(parts[0]) + VisibleAll(parts[1..])
  }

  lemma {:induction false} VisibleConcat(a: string, b: string)
    ensures Visible(a + b) == Visible(a) + Visible(b)
  {
    if a == "" {
      assert a + b == b;
    } else {
      var h := if IsSpace(a[0]) then "" else [a[0]];
      calc {
        Visible(a + b);
        { assert (a + b)[1..] == a[1..] + b; }
        h + Visible(a[1..] + b);
        { VisibleConcat(a[1..], b); }
        h + (Visible(a[1..]) + Visible(b));
        { Assoc(h, Visible(a[1..]), Visible(b)); }
        (h + Visible(a[1..])) + Visible(b);
      }
    }
  }

  lemma {:induction false} VisibleBlank(s: string)
    ensures Visible(s) == "" <==> AllSpace(s)
  {
    if s != "" {
      VisibleBlank(s[1..]);
      if AllSpace(s[1..]) && IsSpace(s[0]) {
        assert s == [s[0]] + s[1..];
      }
    }
  }

  lemma {:induction false} VisibleLStrip(s: string)
    ensures Visible(LStrip(s)) == Visible(s)
    ensures LStrip(s) != "" ==> !IsSpace(LStrip(s)[0])
    ensures |LStrip(s)| <= |s| && LStrip(s) == s[|s| - |LStrip(s)|..]
  {
    if s != "" && IsSpace(s[0]) {
      VisibleLStrip(s[1..]);
      assert Visible(s) == Visible(s[1..]);
    }
  }

  lemma {:induction false} VisibleRStrip(s: string)
    ensures Visible(RStrip(s)) == Visible(s)
    ensures RStrip(s) != "" ==> !IsSpace(RStrip(s)[|RStrip(s)| - 1])
    ensures RStrip(s) <= s
  {
    if s != "" && IsSpace(s[|s| - 1]) {
      VisibleRStrip(s[..|s| - 1]);
      VisibleConcat(s[..|s| - 1], [s[|s| - 1]]);
      assert s == s[..|s| - 1] + [s[|s| - 1]];
    }
  }

  lemma {:induction false} VisiblePrepend(c: char, parts: seq<string>)
    requires parts != []
    ensures VisibleAll([[c] + parts[0]] + parts[1..]) == Visible([c]) + VisibleAll(parts)
  {
    var longer := [[c] + parts[0]] + parts[1..];
    assert longer[1..] == parts[1..];
    VisibleConcat([c], parts[0]);
    Assoc(Visible([c]), Visible(parts[0]), VisibleAll(parts[1..]));
  }

  lemma {:induction false} VisibleAllCons(p: string, parts: seq<string>)
    ensures VisibleAll([p] + parts) == Visible(p) + VisibleAll(parts)
  {
    assert ([p] + parts)[1..] == parts;
  }

  lemma {:induction false} VisiblePieces(t: string)
    ensures VisibleAll(Pieces(t)) == Visible(t)
    decreases |t|
  {
    if t == "" {
      VisibleAllCons("", []);
    } else if SepLen(t) > 0 {
      var k := SepLen(t);
      VisiblePieces(t[k..]);
      SepLenIsGreedyMatch(t, k);
      VisibleBlank(t[..k]);
      VisibleConcat(t[..k], t[k..]);
      assert t == t[..k] + t[k..];
      VisibleAllCons("", Pieces(t[k..]));
    } else {
      VisiblePieces(t[1..]);
      VisiblePrepend(t[0], Pieces(t[1..]));
      VisibleConcat([t[0]], t[1..]);
      assert t == [t[0]] + t[1..];
    }
  }

  lemma {:induction false} VisibleNonblank(pieces: seq<string>)
    ensures VisibleAll(Nonblank(pieces)) == VisibleAll(pieces)
  {
    if pieces != [] {
      VisibleNonblank(pieces[1..]);
      VisibleLStrip(pieces[0]);
      VisibleRStrip(LStrip(pieces[0]));
      var p := Strip(pieces[0]);
      if p != "" {
        assert ([p] + Nonblank(pieces[1..]))[1..] == Nonblank(pieces[1..]);
      } else {
        assert Nonblank(pieces) == Nonblank(pieces[1..]);
      }
    }
  }

  lemma {:induction false} VisibleJoin(parts: seq<string>)
    ensures Visible(Join(parts, BLANK)) == VisibleAll(parts)
  {
    if |parts| == 1 {
      assert parts[1..] == [];
      assert VisibleAll(parts[1..]) == "";
    } else if |parts| > 1 {
      VisibleJoin(parts[1..]);
      VisibleConcat(parts[0] + BLANK, Join(parts[1..], BLANK));
      VisibleConcat(parts[0], BLANK);
      VisibleBlank(BLANK);
    }
  }

  // ------------------------------------------------------------ good paragraphs

  /** No blank line begins anywhere in p. */
  predicate NoSeparator(p: string) {
    SepLen(p) == 0 && (p != "" ==> NoSeparator(p[1..]))
  }

  /** What every paragraph is: not empty, stripped, and with no blank line inside. */
  ghost predicate Good(p: string) {
    p != "" && !IsSpace(p[0]) && !IsSpace(p[|p| - 1]) && NoSeparator(p)
  }

  lemma {:induction false} NewlineRunPrefix(a: string, b: string)
    ensures NewlineRun(a) > 0 ==> NewlineRun(a + b) > 0
    ensures !AllSpace(a) ==> NewlineRun(a + b) == NewlineRun(a)
  {
    if a != "" && IsSpace(a[0]) {
      NewlineRunPrefix(a[1..], b);
      assert (a + b)[1..] == a[1..] + b;
      if !AllSpace(a) {
        assert !AllSpace(a[1..]);
      }
    }
  }

  lemma {:induction false} SepLenPrefix(a: string, b: string)
    ensures SepLen(a) > 0 ==> SepLen(a + b) > 0
  {
    if SepLen(a) > 0 {
      NewlineRunPrefix(a[1..], b);
      assert (a + b)[1..] == a[1..] + b;
    }
  }

  lemma {:induction false} NoSeparatorInSuffix(p: string, i: nat)
    requires NoSeparator(p) && i <= |p|
    ensures NoSeparator(p[i..])
  {
    if i == 0 {
      assert p[0..] == p;
    } else {
      NoSeparatorInSuffix(p[1..], i - 1);
      assert p[1..][i - 1..] == p[i..];
    }
  }

  lemma {:induction false} NoSeparatorInPrefix(a: string, b: string)
    requires NoSeparator(a + b)
    ensures NoSeparator(a)
  {
    SepLenPrefix(a, b);
    if a != "" {
      assert (a + b)[1..] == a[1..] + b;
      NoSeparatorInPrefix(a[1..], b);
    }
  }

  lemma {:induction false} PiecesHaveNoSeparator(t: string)
    ensures forall i :: 0 <= i < |Pieces(t)| ==> NoSeparator(Pieces(t)[i])
    ensures Pieces(t)[0] <= t
    decreases |t|
  {
    if t == "" {
    } else if SepLen(t) > 0 {
      PiecesHaveNoSeparator(t[SepLen(t)..]);
    } else {
      PiecesHaveNoSeparator(t[1..]);
      var rest := Pieces(t[1..]);
      var first := [t[0]] + rest[0];
      assert t == first + t[1..][|rest[0]|..];
      SepLenPrefix(first, t[1..][|rest[0]|..]);
      assert first[1..] == rest[0];
    }
  }

  lemma {:induction false} StripIsPart(p: string) returns (i: nat, j: nat)
    ensures i <= j <= |p| && Strip(p) == p[i..][..j - i]
    ensures Strip(p) != "" ==> !IsSpace(Strip(p)[0]) && !IsSpace(Strip(p)[|Strip(p)| - 1])
  {
    VisibleLStrip(p);
    VisibleRStrip(LStrip(p));
    i := |p| - |LStrip(p)|;
    j := i + |Strip(p)|;
  }

  lemma {:induction false} NoSeparatorInPart(p: string, i: nat, n: nat)
    requires NoSeparator(p) && i + n <= |p|
    ensures NoSeparator(p[i..][..n])
  {
    NoSeparatorInSuffix(p, i);
    TakeDrop(p[i..], n);
    NoSeparatorInPrefix(p[i..][..n], p[i..][n..]);
  }

  lemma {:induction false} TakeDrop(s: string, n: nat)
    requires n <= |s|
    ensures s[..n] + s[n..] == s
  {}

  lemma {:induction false} StripOfPiece(p: string)
    requires NoSeparator(p)
    ensures Strip(p) != "" ==> Good(Strip(p))
  {
    var i, j := StripIsPart(p);
    NoSeparatorInPart(p, i, j - i);
  }

  lemma {:induction false} NonblankAreGood(pieces: seq<string>)
    requires forall i :: 0 <= i < |pieces| ==> NoSeparator(pieces[i])
    ensures forall i :: 0 <= i < |Nonblank(pieces)| ==> Good(Nonblank(pieces)[i])
  {
    if pieces != [] {
      NonblankAreGood(pieces[1..]);
      StripOfPiece(pieces[0]);
    }
  }

  lemma {:induction false} ParasAreGood(text: string)
    ensures forall i :: 0 <= i < |Paras(text)| ==> Good(Paras(text)[i])
  {
    PiecesHaveNoSeparator(text);
    NonblankAreGood(Pieces(text));
  }

  lemma {:induction false} PiecesOfParagraph(p: string)
    requires NoSeparator(p)
    ensures Pieces(p) == [p]
    decreases |p|
  {
    if p != "" {
      PiecesOfParagraph(p[1..]);
      assert [p[0]] + p[1..] == p;
    }
  }

  lemma {:induction false} SepLenOfJoin(p: string, rest: string)
    requires p != "" && SepLen(p) == 0 && !IsSpace(p[|p| - 1])
    ensures SepLen(p + rest) == 0
  {
    if p[0] == '\n' {
      assert !AllSpace(p[1..]) by { assert p[1..][|p| - 2] == p[|p| - 1]; }
      NewlineRunPrefix(p[1..], rest);
      assert p[1..] + rest == (p + rest)[1..];
    }
  }

  lemma {:induction false} PiecesFromBlank(rest: string)
    requires rest != "" && !IsSpace(rest[0])
    ensures Pieces(BLANK + rest) == [""] + Pieces(rest)
  {
    var t := BLANK + rest;
    assert t[1..] == "\n" + rest && ("\n" + rest)[1..] == rest;
    assert NewlineRun("\n" + rest) == 1;
    assert SepLen(t) == 2 && t[2..] == rest;
  }

  /** Splitting a paragraph followed by text that begins with a separator. */
  lemma {:induction false} PiecesOfJoin(p: string, tail: string, more: seq<string>)
    requires NoSeparator(p) && (p != "" ==> !IsSpace(p[|p| - 1]))
    requires Pieces(tail) == [""] + more
    ensures Pieces(p + tail) == [p] + more
    decreases |p|
  {
    if p == "" {
      assert p + tail == tail;
    } else {
      PiecesOfJoin(p[1..], tail, more);
      SepLenOfJoin(p, tail);
      PiecesStep(p, tail, more);
    }
  }

  lemma {:induction false} PiecesStep(p: string, tail: string, more: seq<string>)
    requires p != "" && SepLen(p + tail) == 0 && Pieces(p[1..] + tail) == [p[1..]] + more
    ensures Pieces(p + tail) == [p] + more
  {
    assert (p + tail)[1..] == p[1..] + tail;
    assert [p[0]] + p[1..] == p;
  }

  lemma {:induction false} StripGood(p: string)
    requires Good(p)
    ensures Strip(p) == p
  {}

  lemma {:induction false} PiecesOfParas(ps: seq<string>)
    requires ps != [] && forall i :: 0 <= i < |ps| ==> Good(ps[i])
    ensures Pieces(Join(ps, BLANK)) == ps
  {
    if |ps| == 1 {
      PiecesOfParagraph(ps[0]);
    } else {
      PiecesOfParas(ps[1..]);
      var rest := Join(ps[1..], BLANK);
      assert Good(ps[1]) && rest[0] == ps[1][0];
      PiecesFromBlank(rest);
      PiecesOfJoin(ps[0], BLANK + rest, ps[1..]);
      assert ps[0] + BLANK + rest == ps[0] + (BLANK + rest);
      assert [ps[0]] + ps[1..] == ps;
    }
  }

  lemma {:induction false} NonblankOfParas(ps: seq<string>)
    requires forall i :: 0 <= i < |ps| ==> Good(ps[i])
    ensures Nonblank(ps) == ps
  {
    if ps != [] {
      NonblankOfParas(ps[1..]);
      assert Good(ps[0]);
      StripGood(ps[0]);
    }
  }

  /** Good paragraphs joined by blank lines are read back as they are. */
  lemma {:induction false} ParasOfJoin(ps: seq<string>)
    requires forall i :: 0 <= i < |ps| ==> Good(ps[i])
    ensures Paras(Join(ps, BLANK)) == ps
  {
    if ps == [] {
      assert Pieces("") == [""];
      assert Nonblank([""]) == Nonblank([""][1..]);
    } else {
      PiecesOfParas(ps);
      NonblankOfParas(ps);
    }
  }

  // -------------------------------------------------------------- grouping

  type Group = seq<string>

  function Flatten(gs: seq<Group>): seq<string> {
    if gs == [] then [] else gs[0] + Flatten(gs[1..])
  }

  predicate Fits(g: Group, size: int) {
    |g| == 1 || |Join(g, BLANK)| <= size
  }

  /** An order-preserving grouping that keeps the size limit: the only groups over the limit
      are single paragraphs. */
  predicate ValidGrouping(gs: seq<Group>, paras: seq<string>, size: int) {
    Flatten(gs) == paras && forall i :: 0 <= i < |gs| ==> gs[i] != [] && Fits(gs[i], size)
  }

  /** How many paragraphs the loop collects before it starts a new chunk, when it already
      holds the first k. */
  function Take(paras: seq<string>, size: int, k: nat): (n: nat)
    requires 1 <= k <= |paras|
    ensures k <= n <= |paras|
    decreases |paras| - k
  {
    if k < |paras| && |Join(paras[..k], BLANK)| + |paras[k]| + 2 <= size then Take(paras, size, k + 1) else k
  }

  function Greedy(paras: seq<string>, size: int): (gs: seq<Group>)
    decreases |paras|
  {
    if paras == [] then []
    else [paras[..Take(paras, size, 1)]] + Greedy(paras[Take(paras, size, 1)..], size)
  }

  function Joined(gs: seq<Group>): (r: seq<string>) {
    seq(|gs|, i requires 0 <= i < |gs| => Join(gs[i], BLANK))
  }

  /** The chunks of a text. */
  function Chunks(text: string, size: int): seq<string> {
    Joined(Greedy(Paras(text), size))
  }

  lemma {:induction false} JoinGrows(paras: seq<string>, k: nat)
    requires 1 <= k < |paras|
    ensures |Join(paras[..k + 1], BLANK)| == |Join(paras[..k], BLANK)| + |paras[k]| + 2
  {
    JoinConcat(paras[..k], [paras[k]], BLANK);
    assert paras[..k] + [paras[k]] == paras[..k + 1];
  }

  lemma {:induction false} JoinPrefixShorter(paras: seq<string>, k: nat, n: nat)
    requires 1 <= k <= n <= |paras|
    ensures |Join(paras[..k], BLANK)| <= |Join(paras[..n], BLANK)|
    decreases n - k
  {
    if k < n {
      JoinGrows(paras, k);
      JoinPrefixShorter(paras, k + 1, n);
    }
  }

  lemma {:induction false} TakeFits(paras: seq<string>, size: int, k: nat)
    requires 1 <= k <= |paras|
    requires k == 1 || |Join(paras[..k], BLANK)| <= size
    ensures Fits(paras[..Take(paras, size, k)], size)
    decreases |paras| - k
  {
    if k < |paras| && |Join(paras[..k], BLANK)| + |paras[k]| + 2 <= size {
      JoinGrows(paras, k);
      TakeFits(paras, size, k + 1);
    }
  }

  /** Every first group within the limit is covered by what the loop takes. */
  lemma {:induction false} TakeIsMaximal(paras: seq<string>, size: int, k: nat, n: nat)
    requires 1 <= k <= n <= |paras|
    requires n == k || |Join(paras[..n], BLANK)| <= size
    ensures n <= Take(paras, size, k)
    decreases n - k
  {
    if k < n {
      JoinGrows(paras, k);
      JoinPrefixShorter(paras, k + 1, n);
      TakeIsMaximal(paras, size, k + 1, n);
    }
  }

  lemma {:induction false} GreedyIsValid(paras: seq<string>, size: int)
    ensures ValidGrouping(Greedy(paras, size), paras, size)
    decreases |paras|
  {
    if paras != [] {
      var k := Take(paras, size, 1);
      TakeFits(paras, size, 1);
      GreedyIsValid(paras[k..], size);
      assert paras == paras[..k] + paras[k..];
      var gs := Greedy(paras, size);
      assert gs[1..] == Greedy(paras[k..], size);
    }
  }

  lemma {:induction false} JoinSuffixShorter(g: Group, d: nat)
    requires d < |g|
    ensures |Join(g[d..], BLANK)| <= |Join(g, BLANK)|
  {
    if d == 0 {
      assert g[0..] == g;
    } else {
      JoinConcat(g[..d], g[d..], BLANK);
      assert g[..d] + g[d..] == g;
    }
  }

  /** Greedy stays ahead: starting d paragraphs further on, the loop needs no more chunks
      than any valid grouping of the whole. */
  lemma {:induction false} StaysAhead(paras: seq<string>, d: nat, gs: seq<Group>, size: int)
    requires ValidGrouping(gs, paras, size) && d <= |paras|
    ensures |Greedy(paras[d..], size)| <= |gs|
    decreases |gs|
  {
    if gs != [] && d < |paras| {
      var m := |gs[0]|;
      var rest := paras[m..];
      assert paras[..m] == gs[0] && rest == Flatten(gs[1..]);
      assert ValidGrouping(gs[1..], rest, size);
      if m <= d {
        StaysAhead(rest, d - m, gs[1..], size);
        assert rest[d - m..] == paras[d..];
      } else {
        var q := paras[d..];
        assert q[..m - d] == gs[0][d..];
        JoinSuffixShorter(gs[0], d);
        TakeIsMaximal(q, size, 1, m - d);
        var k := Take(q, size, 1);
        StaysAhead(rest, k - (m - d), gs[1..], size);
        assert rest[k - (m - d)..] == q[k..];
      }
    }
  }

  // ---------------------------------------------------------- main theorems

  /** No order-preserving grouping within the limit uses fewer chunks. */
  lemma {:induction false} ChunksAreFewest(text: string, size: int, gs: seq<Group>)
    requires ValidGrouping(gs, Paras(text), size)
    ensures |Chunks(text, size)| <= |gs|
    ensures ValidGrouping(Greedy(Paras(text), size), Paras(text), size)
  {
    StaysAhead(Paras(text), 0, gs, size);
    assert Paras(text)[0..] == Paras(text);
    GreedyIsValid(Paras(text), size);
  }

  lemma {:induction false} VisibleGroups(gs: seq<Group>)
    ensures VisibleAll(Joined(gs)) == VisibleAll(Flatten(gs))
  {
    if gs != [] {
      VisibleGroups(gs[1..]);
      VisibleJoin(gs[0]);
      VisibleAllConcat(gs[0], Flatten(gs[1..]));
      assert Joined(gs)[1..] == Joined(gs[1..]);
    }
  }

  lemma {:induction false} VisibleAllConcat(a: seq<string>, b: seq<string>)
    ensures VisibleAll(a + b) == VisibleAll(a) + VisibleAll(b)
  {
    if a == [] {
      assert a + b == b;
    } else {
      VisibleAllConcat(a[1..], b);
      assert (a + b)[1..] == a[1..] + b;
      Assoc(Visible(a[0]), VisibleAll(a[1..]), VisibleAll(b));
    }
  }

  /** Nothing but white space is lost, and nothing is added or moved. */
  lemma {:induction false} ChunksAreLossless(text: string, size: int)
    ensures VisibleAll(Chunks(text, size)) == Visible(text)
  {
    GreedyIsValid(Paras(text), size);
    VisibleGroups(Greedy(Paras(text), size));
    VisibleNonblank(Pieces(text));
    VisiblePieces(text);
  }

  /** There is no chunk exactly when the text is all white space. */
  lemma {:induction false} NoChunksExactlyForBlankText(text: string, size: int)
    ensures Chunks(text, size) == [] <==> AllSpace(text)
  {
    ChunksAreLossless(text, size);
    VisibleBlank(text);
    if Chunks(text, size) != [] {
      ParasAreGood(text);
      VisibleNonblank(Pieces(text));
      VisiblePieces(text);
      var p := Paras(text)[0];
      VisibleBlank(p);
      assert !AllSpace(p);
    }
  }

  lemma {:induction false} JoinOfJoined(gs: seq<Group>)
    requires forall i :: 0 <= i < |gs| ==> gs[i] != []
    ensures Join(Joined(gs), BLANK) == Join(Flatten(gs), BLANK)
  {
    if |gs| == 1 {
      assert gs[1..] == [] && Flatten(gs) == gs[0];
    } else if |gs| > 1 {
      JoinOfJoined(gs[1..]);
      assert Joined(gs)[1..] == Joined(gs[1..]);
      assert Flatten(gs[1..]) == gs[1] + Flatten(gs[1..][1..]);
      JoinConcat(gs[0], Flatten(gs[1..]), BLANK);
    }
  }

  /** Chunking the chunks, joined by blank lines, gives the same chunks. */
  lemma {:induction false} RechunkingIsStable(text: string, size: int)
    ensures Chunks(Join(Chunks(text, size), BLANK), size) == Chunks(text, size)
  {
    var gs := Greedy(Paras(text), size);
    GreedyIsValid(Paras(text), size);
    JoinOfJoined(gs);
    ParasAreGood(text);
    ParasOfJoin(Paras(text));
  }

  // ------------------------------------------------------------- the loop

  /** text[:size], with Python's meaning of a negative bound. */
  function Head(text: string, size: int): string {
    if size >= |text| then text
    else if size >= 0 then text[..size]
    else if |text| + size <= 0 then "" else text[..|text| + size]
  }

  /** The loop before paragraph i: `courant` is the chunk begun at paragraph `start`. */
  ghost predicate Collecting(paras: seq<string>, size: int, start: nat, i: nat, courant: string) {
    && start < i <= |paras|
    && courant == Join(paras[start..i], BLANK)
    && Take(paras[start..], size, 1) == Take(paras[start..], size, i - start)
  }

  lemma {:induction false} CollectFirst(paras: seq<string>, size: int, i: nat)
    requires i < |paras|
    ensures Collecting(paras, size, i, i + 1, paras[i])
  {
    assert paras[i..i + 1] == [paras[i]];
  }

  lemma {:induction false} CollectMore(paras: seq<string>, size: int, start: nat, i: nat, courant: string)
    requires Collecting(paras, size, start, i, courant) && i < |paras|
    requires |courant| + |paras[i]| + 2 <= size
    ensures Collecting(paras, size, start, i + 1, courant + BLANK + paras[i])
  {
    var rest := paras[start..];
    assert rest[..i - start] == paras[start..i] && rest[i - start] == paras[i];
    JoinConcat(paras[start..i], [paras[i]], BLANK);
    assert paras[start..i] + [paras[i]] == paras[start..i + 1];
  }

  /** The chunk ends where the next paragraph does not fit, or at the end of the text. */
  lemma {:induction false} CollectEnd(paras: seq<string>, size: int, start: nat, i: nat, courant: string)
    requires Collecting(paras, size, start, i, courant)
    requires i < |paras| ==> |courant| + |paras[i]| + 2 > size
    ensures Greedy(paras[start..], size) == [paras[start..i]] + Greedy(paras[i..], size)
  {
    var rest := paras[start..];
    assert rest[..i - start] == paras[start..i] && rest[i - start..] == paras[i..];
    if i < |paras| { assert rest[i - start] == paras[i]; }
    assert Take(rest, size, 1) == i - start;
  }

  lemma {:induction false} StripBlank(text: string)
    ensures Strip(text) == "" <==> AllSpace(text)
  {
    VisibleLStrip(text);
    VisibleRStrip(LStrip(text));
    VisibleBlank(text);
    VisibleBlank(Strip(text));
  }

  /** The chunks closed so far are the greedy chunks of the paragraphs before `start`. */
  ghost predicate Closed(paras: seq<string>, size: int, start: nat, chunks: seq<string>) {
    start <= |paras| && Joined(Greedy(paras, size)) == chunks + Joined(Greedy(paras[start..], size))
  }

  lemma {:induction false} CloseNone(paras: seq<string>, size: int)
    ensures Closed(paras, size, 0, [])
  {
    assert paras[0..] == paras;
  }

  lemma {:induction false} CloseOne(paras: seq<string>, size: int, start: nat, i: nat, chunks: seq<string>, courant: string)
    requires Closed(paras, size, start, chunks) && Collecting(paras, size, start, i, courant)
    requires i < |paras| ==> |courant| + |paras[i]| + 2 > size
    ensures Closed(paras, size, i, chunks + [courant])
  {
    CollectEnd(paras, size, start, i, courant);
    var rest := Greedy(paras[i..], size);
    assert Joined([paras[start..i]] + rest) == [courant] + Joined(rest);
    Assoc(chunks, [courant], Joined(rest));
  }

  lemma {:induction false} CloseAll(paras: seq<string>, size: int, chunks: seq<string>)
    requires Closed(paras, size, |paras|, chunks)
    ensures chunks == Joined(Greedy(paras, size))
  {
    assert paras[|paras|..] == [];
    assert Joined([]) == [];
  }

  lemma {:induction false} ParasAreNotEmpty(text: string)
    ensures forall i :: 0 <= i < |Paras(text)| ==> Paras(text)[i] != ""
  {
    ParasAreGood(text);
  }

  lemma {:induction false} Finish(text: string, size: int)
    ensures Chunks(text, size) == [] <==> Strip(text) == ""
    ensures Chunks(text, size) == [] <==> AllSpace(text)
  {
    NoChunksExactlyForBlankText(text, size);
    StripBlank(text);
  }

  /** The loop of `chunk_text` over the paragraphs, with the chunk left over at the end. */
  method GroupParas(paras: seq<string>, size: int) returns (chunks: seq<string>)
    requires forall i :: 0 <= i < |paras| ==> paras[i] != ""
    ensures chunks == Joined(Greedy(paras, size))
  {
    var courant := "";
    chunks := [];
    ghost var start := 0;
    CloseNone(paras, size);
    for i := 0 to |paras|
      invariant if courant == "" then i == 0 && start == 0 else Collecting(paras, size, start, i, courant)
      invariant Closed(paras, size, start, chunks)
    {
      var p := paras[i];
      if courant != "" && |courant| + |p| + 2 > size {
        CloseOne(paras, size, start, i, chunks, courant);
        CollectFirst(paras, size, i);
        chunks := chunks + [courant];
        start := i;
        courant := p;
      } else {
        if courant != "" { CollectMore(paras, size, start, i, courant); } else { CollectFirst(paras, size, i); }
        courant := if courant != "" then courant + BLANK + p else p;
      }
    }
    if courant != "" {
      CloseOne(paras, size, start, |paras|, chunks, courant);
      chunks := chunks + [courant];
    }
    CloseAll(paras, size, chunks);
  }

  /** `chunk_text`; the fallback on the last line is never reached. */
  method ChunkText(text: string, size: int) returns (r: seq<string>)
    ensures r == Chunks(text, size)
    ensures r == [] <==> AllSpace(text)
  {
    ParasAreNotEmpty(text);
    var chunks := GroupParas(Paras(text), size);
    Finish(text, size);
    if chunks != [] { return chunks; }
    return if Strip(text) != "" then [Head(text, size)] else [];
  }
}
