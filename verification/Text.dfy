/** Splitting at a character and joining again, as Python's str.split and str.join and
    Rust's str::split do. */
module Text {

  /** Always at least one part: splitting the empty string gives one empty part. */
  function Split(s: string, d: char): (parts: seq<string>)
    ensures |parts| >= 1
  {
    if s == "" then [""]
    else
      var rest := Split(s[1..], d);
      if s[0] == d then [""] + rest else [[s[0]] + rest[0]] + rest[1..]
  }

  function Join(parts: seq<string>, sep: string): string {
    if parts == [] then ""
    else if |parts| == 1 then parts[0]
    else parts[0] + sep + Join(parts[1..], sep)
  }

  /** Parts do not contain the separator. */
  lemma {:induction false} SplitParts(s: string, d: char)
    ensures forall i :: 0 <= i < |Split(s, d)| ==> d !in Split(s, d)[i]
  {
    if s != "" {
      SplitParts(s[1..], d);
    }
  }

  /** A string before the first separator comes out as the first part. */
  lemma {:induction false} SplitFirst(a: string, d: char, b: string)
    requires d !in a
    ensures Split(a + [d] + b, d) == [a] + Split(b, d)
    ensures Split(a, d) == [a]
  {
    if a == "" {
      assert a + [d] + b == [d] + b;
    } else {
      SplitFirst(a[1..], d, b);
      assert (a + [d] + b)[1..] == a[1..] + [d] + b;
      assert a == [a[0]] + a[1..];
    }
  }

  lemma {:induction false} ConsFirst(c: char, x: seq<string>, y: seq<string>)
    requires x != []
    ensures [[c] + (x + y)[0]] + (x + y)[1..] == ([[c] + x[0]] + x[1..]) + y
  {}

  lemma {:induction false} SplitConcat(a: string, d: char, b: string)
    ensures Split(a + [d] + b, d) == Split(a, d) + Split(b, d)
  {
    if a == "" {
      assert a + [d] + b == [d] + b;
    } else {
      var s := a + [d] + b;
      assert s[1..] == a[1..] + [d] + b && s[0] == a[0] && s != "";
      SplitConcat(a[1..], d, b);
      var x, y := Split(a[1..], d), Split(b, d);
      assert Split(s[1..], d) == x + y;
      if a[0] == d { Assoc([""], x, y); } else { ConsFirst(a[0], x, y); }
    }
  }

  lemma {:induction false} SplitJoin(parts: seq<string>, d: char)
    requires |parts| >= 1
    requires forall i :: 0 <= i < |parts| ==> d !in parts[i]
    ensures Split(Join(parts, [d]), d) == parts
  {
    if |parts| == 1 {
      SplitFirst(parts[0], d, "");
    } else {
      SplitJoin(parts[1..], d);
      SplitFirst(parts[0], d, Join(parts[1..], [d]));
      assert [parts[0]] + parts[1..] == parts;
    }
  }

  lemma {:induction false} Assoc<T>(a: seq<T>, b: seq<T>, c: seq<T>)
    ensures a + (b + c) == (a + b) + c
  {}

  lemma {:induction false} JoinConcat(a: seq<string>, b: seq<string>, sep: string)
    requires a != [] && b != []
    ensures Join(a + b, sep) == Join(a, sep) + sep + Join(b, sep)
  {
    var jb := Join(b, sep);
    if |a| == 1 {
      assert (a + b)[1..] == b;
    } else {
      var ja := Join(a[1..], sep);
      calc {
        Join(a + b, sep);
        { assert (a + b)[1..] == a[1..] + b; }
        (a[0] + sep) + Join(a[1..] + b, sep);
        { JoinConcat(a[1..], b, sep); }
        (a[0] + sep) + ((ja + sep) + jb);
        { Assoc(a[0] + sep, ja + sep, jb); }
        ((a[0] + sep) + (ja + sep)) + jb;
        { Assoc(a[0] + sep, ja, sep); }
        (((a[0] + sep) + ja) + sep) + jb;
      }
    }
  }

  /** Joining what was split gives the text back. */
  lemma {:induction false} JoinSplit(s: string, d: char)
    ensures Join(Split(s, d), [d]) == s
  {
    if s != "" {
      var rest := Split(s[1..], d);
      JoinSplit(s[1..], d);
      if s[0] == d {
        assert ([""] + rest)[1..] == rest;
      } else if |rest| > 1 {
        assert ([[s[0]] + rest[0]] + rest[1..])[1..] == rest[1..];
        Assoc([s[0]], rest[0], [d] + Join(rest[1..], [d]));
      }
    }
  }

  // ------------------------------------------------------------ white space

  /** str.isspace, which is also what \s matches and what strip() removes. */
  predicate IsSpace(c: char) {
    var n := c as int;
    9 <= n <= 13 || 28 <= n <= 32 || n == 0x85 || n == 0xA0 || n == 0x1680 || 0x2000 <= n <= 0x200A
    || n == 0x2028 || n == 0x2029 || n == 0x202F || n == 0x205F || n == 0x3000
  }

  function LStrip(s: string): string {
    if s != "" && IsSpace(s[0]) then LStrip(s[1..]) else s
  }

  function RStrip(s: string): string {
    if s != "" && IsSpace(s[|s| - 1]) then RStrip(s[..|s| - 1]) else s
  }

  function Strip(s: string): string { RStrip(LStrip(s)) }

  lemma {:induction false} RStripIsPrefix(s: string)
    ensures RStrip(s) <= s
  {
    if s != "" && IsSpace(s[|s| - 1]) { RStripIsPrefix(s[..|s| - 1]); }
  }
}
