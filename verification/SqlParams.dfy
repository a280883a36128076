/** `sql()` of runtimes/python/python/vignemale/datamodel.py: a small compiler from named
    to positional placeholders, and the binding of the values. */
module SqlParams {
  import opened Decimals
  import opened Wrappers

  predicate IsIdStart(c: char) { 'a' <= c <= 'z' || 'A' <= c <= 'Z' || c == '_' }

  predicate IsIdChar(c: char) { IsIdStart(c) || IsDigit(c) }

  // ---------------------------------------------------------------- scanning

  /** How many of the first characters may continue an identifier. */
  function IdRun(t: string): (n: nat)
    ensures n <= |t| && (n < |t| ==> !IsIdChar(t[n]))
  {
    if t == "" || !IsIdChar(t[0]) then 0 else 1 + IdRun(t[1..])
  }

  /** The length of the name after a `$` (0: the `$` is not a named placeholder). */
  function NameLen(t: string): (n: nat)
    ensures n <= |t| && (0 < n < |t| ==> !IsIdChar(t[n]))
  {
    if t != "" && IsIdStart(t[0]) then IdRun(t) else 0
  }

  predicate AtName(q: string) { q != "" && q[0] == '$' && NameLen(q[1..]) > 0 }

  function NameAt(q: string): string
    requires AtName(q)
  {
    q[1..1 + NameLen(q[1..])]
  }

  function AfterName(q: string): (rest: string)
    requires AtName(q)
    ensures |rest| < |q|
  {
    q[1 + NameLen(q[1..])..]
  }

  /** re.findall: the names in the query, in order, with repetitions. */
  function Names(q: string): seq<string>
    decreases |q|
  {
    if q == "" then []
    else if AtName(q) then [NameAt(q)] + Names(AfterName(q))
    else Names(q[1..])
  }

  /** A named placeholder is a dollar sign, a letter or underscore, and as many letters, digits and
      underscores as follow. */
  lemma {:induction false} NameIsRead(first: char, more: string, rest: string)
    requires 'a' <= first <= 'z' || 'A' <= first <= 'Z' || first == '_'
    requires forall i :: 0 <= i < |more| ==>
               'a' <= more[i] <= 'z' || 'A' <= more[i] <= 'Z' || more[i] == '_' || '0' <= more[i] <= '9'
    requires rest != "" ==> !('a' <= rest[0] <= 'z' || 'A' <= rest[0] <= 'Z' || rest[0] == '_' || '0' <= rest[0] <= '9')
    ensures var q := "$" + ([first] + more + rest); AtName(q) && NameAt(q) == [first] + more && AfterName(q) == rest
  {
    var t := [first] + more + rest;
    var q := "$" + t;
    IdRunIs([first] + more, rest);
    assert q[1..] == t;
    assert t[..|more| + 1] == [first] + more && t[|more| + 1..] == rest;
    assert q[1..1 + NameLen(t)] == t[..NameLen(t)] && q[1 + NameLen(t)..] == t[NameLen(t)..];
  }

  lemma {:induction false} IdRunIs(name: string, rest: string)
    requires forall i :: 0 <= i < |name| ==> 'a' <= name[i] <= 'z' || 'A' <= name[i] <= 'Z' || name[i] == '_' || '0' <= name[i] <= '9'
    requires rest != "" ==> !('a' <= rest[0] <= 'z' || 'A' <= rest[0] <= 'Z' || rest[0] == '_' || '0' <= rest[0] <= '9')
    ensures IdRun(name + rest) == |name|
  {
    if name == "" {
      assert name + rest == rest;
    } else {
      assert (name + rest)[1..] == name[1..] + rest;
      IdRunIs(name[1..], rest);
    }
  }

  /** Any other dollar sign is no named placeholder. */
  lemma {:induction false} NoNameHere(t: string)
    requires t != "" ==> !('a' <= t[0] <= 'z' || 'A' <= t[0] <= 'Z' || t[0] == '_')
    ensures !AtName("$" + t)
  {
    assert ("$" + t)[1..] == t;
  }

  function DigitRun(t: string): (n: nat)
    ensures n <= |t|
  {
    if t == "" || !IsDigit(t[0]) then 0 else 1 + DigitRun(t[1..])
  }

  // ---------------------------------------------------------------- compiling

  function IndexOf(order: seq<string>, name: string): (i: nat)
    requires name in order
    ensures i < |order| && order[i] == name
  {
    if order[0] == name then 0 else 1 + IndexOf(order[1..], name)
  }

  predicate Declared(q: string, order: seq<string>) {
    forall i :: 0 <= i < |Names(q)| ==> Names(q)[i] in order
  }

  lemma {:induction false} DeclaredTail(q: string, order: seq<string>)
    requires q != "" && Declared(q, order)
    ensures AtName(q) ==> NameAt(q) in order && Declared(AfterName(q), order)
    ensures !AtName(q) ==> Declared(q[1..], order)
  {
    if AtName(q) {
      assert Names(q)[0] == NameAt(q);
      assert forall i :: 0 <= i < |Names(AfterName(q))| ==> Names(AfterName(q))[i] == Names(q)[i + 1];
    } else {
      assert Names(q) == Names(q[1..]);
    }
  }

  /** re.sub: each $name becomes $N, N the position of the name in the declaration. */
  function Rewrite(q: string, order: seq<string>): string
    requires Declared(q, order)
    decreases |q|
  {
    if q == "" then ""
    else
      DeclaredTail(q, order);
      if AtName(q) then "$" + Decimal(IndexOf(order, NameAt(q)) + 1) + Rewrite(AfterName(q), order)
      else [q[0]] + Rewrite(q[1..], order)
  }

  datatype CompileError = NotDeclared | NotUsed

  /** The compile step: every name of the query must be declared, and every declared
      parameter used. */
  function Compile(q: string, order: seq<string>): Result<string, CompileError> {
    if !Declared(q, order) then Err(NotDeclared)
    else if exists i :: 0 <= i < |order| && order[i] !in Names(q) then Err(NotUsed)
    else Ok(Rewrite(q, order))
  }

  /** The compile step refuses a query that uses a name nobody declared, and then one that leaves a
      declared name unused; nothing else. */
  lemma {:induction false} CompileErrors(q: string, order: seq<string>, names: seq<string>)
    requires names == Names(q)
    ensures Compile(q, order) == Err(NotDeclared) <==> exists name :: name in names && name !in order
    ensures Compile(q, order) == Err(NotUsed) <==>
              (forall name :: name in names ==> name in order) && exists name :: name in order && name !in names
  {
    assert Declared(q, order) <==> forall i :: 0 <= i < |names| ==> names[i] in order;
  }

  // ---------------------------------------------------------------- meaning

  /** What the server sees: plain characters, values, and placeholders without a value. */
  datatype Token<V> = Plain(c: char) | Bound(v: V) | Unbound(n: nat)

  /** The meaning of the query as written: each $name stands for its value. */
  function ExpandNamed<V>(q: string, env: string -> V): seq<Token<V>>
    decreases |q|
  {
    if q == "" then []
    else if AtName(q) then [Bound(env(NameAt(q)))] + ExpandNamed(AfterName(q), env)
    else [Plain(q[0])] + ExpandNamed(q[1..], env)
  }

  predicate AtNumber(q: string) { q != "" && q[0] == '$' && DigitRun(q[1..]) > 0 }

  function NumberAt(q: string): nat
    requires AtNumber(q)
  {
    Value(q[1..1 + DigitRun(q[1..])])
  }

  function AfterNumber(q: string): (rest: string)
    requires AtNumber(q)
    ensures |rest| < |q|
  {
    q[1 + DigitRun(q[1..])..]
  }

  function Slot<V>(bound: seq<V>, n: nat): Token<V> {
    if 1 <= n <= |bound| then Bound(bound[n - 1]) else Unbound(n)
  }

  /** The meaning of the compiled text: each $N stands for the N-th bound value. */
  function ExpandPositional<V>(q: string, bound: seq<V>): seq<Token<V>>
    decreases |q|
  {
    if q == "" then []
    else if AtNumber(q) then [Slot(bound, NumberAt(q))] + ExpandPositional(AfterNumber(q), bound)
    else [Plain(q[0])] + ExpandPositional(q[1..], bound)
  }

  /** The placeholder numbers of a compiled text, in order. */
  function Numbers(q: string): seq<nat>
    decreases |q|
  {
    if q == "" then []
    else if AtNumber(q) then [NumberAt(q)] + Numbers(AfterNumber(q))
    else Numbers(q[1..])
  }

  /** The query holds no positional placeholder of its own. */
  predicate NoRawNumber(q: string) {
    q != "" ==> !(q[0] == '$' && |q| > 1 && IsDigit(q[1])) && NoRawNumber(q[1..])
  }

  // ---------------------------------------------------------------- lemmas

  lemma {:induction false} DigitRunExact(d: string, rest: string)
    requires forall i :: 0 <= i < |d| ==> IsDigit(d[i])
    requires rest == "" || !IsDigit(rest[0])
    ensures DigitRun(d + rest) == |d|
  {
    if d == "" {
      assert d + rest == rest;
    } else {
      DigitRunExact(d[1..], rest);
      assert (d + rest)[1..] == d[1..] + rest;
    }
  }

  /** Reading back a number that was printed, whatever follows, as long as it is no digit. */
  lemma {:induction false} NumberReadsBack(n: nat, rest: string)
    requires rest == "" || !IsDigit(rest[0])
    ensures var t := "$" + Decimal(n) + rest;
            AtNumber(t) && NumberAt(t) == n && AfterNumber(t) == rest
  {
    var d := Decimal(n);
    var t := "$" + d + rest;
    DecimalRoundTrip(n);
    DigitRunExact(d, rest);
    assert t[1..] == d + rest;
    assert t[1..1 + |d|] == d;
  }

  lemma {:induction false} RewriteStart(q: string, order: seq<string>)
    requires Declared(q, order)
    ensures q == "" <==> Rewrite(q, order) == ""
    ensures q != "" ==> Rewrite(q, order)[0] == q[0]
  {}

  lemma {:induction false} NoRawSuffix(q: string, i: nat)
    requires NoRawNumber(q) && i <= |q|
    ensures NoRawNumber(q[i..])
  {
    if i == 0 {
      assert q[0..] == q;
    } else {
      NoRawSuffix(q[1..], i - 1);
      assert q[1..][i - 1..] == q[i..];
    }
  }

  /** At a named placeholder the rewritten text reads as the declared position. */
  lemma {:induction false} RewriteAtName(q: string, order: seq<string>)
    requires AtName(q) && Declared(q, order)
    ensures NameAt(q) in order && Declared(AfterName(q), order)
    ensures var t := Rewrite(q, order);
            AtNumber(t) && NumberAt(t) == IndexOf(order, NameAt(q)) + 1
            && AfterNumber(t) == Rewrite(AfterName(q), order)
  {
    DeclaredTail(q, order);
    var rest := AfterName(q);
    RewriteStart(rest, order);
    NumberReadsBack(IndexOf(order, NameAt(q)) + 1, Rewrite(rest, order));
  }

  /** Elsewhere it reads as the same character, unless a raw $digit stands there. */
  lemma {:induction false} RewriteElsewhere(q: string, order: seq<string>)
    requires q != "" && !AtName(q) && Declared(q, order)
    ensures Declared(q[1..], order)
    ensures Rewrite(q, order)[1..] == Rewrite(q[1..], order) && Rewrite(q, order)[0] == q[0]
    ensures AtNumber(Rewrite(q, order)) <==> q[0] == '$' && |q| > 1 && IsDigit(q[1])
  {
    DeclaredTail(q, order);
    RewriteStart(q[1..], order);
    assert Rewrite(q, order)[1..] == Rewrite(q[1..], order);
  }

  /** The bound list follows the declaration. */
  predicate BoundAs<V(==)>(order: seq<string>, env: string -> V, bound: seq<V>) {
    |bound| == |order| && forall i :: 0 <= i < |order| ==> bound[i] == env(order[i])
  }

  /** The compiled text with the bound list means what the query means with the named
      values exactly when the query holds no positional placeholder of its own. */
  lemma {:induction false} RewritePreservesMeaning<V>(q: string, order: seq<string>, env: string -> V, bound: seq<V>)
    requires Declared(q, order) && BoundAs(order, env, bound)
    ensures ExpandPositional(Rewrite(q, order), bound) == ExpandNamed(q, env) <==> NoRawNumber(q)
    decreases |q|
  {
    if q == "" { return; }
    var t := Rewrite(q, order);
    if AtName(q) {
      RewriteAtName(q, order);
      var k := NameLen(q[1..]);
      RewritePreservesMeaning(AfterName(q), order, env, bound);
      NoRawThroughName(q, 1 + k);
      assert Slot(bound, NumberAt(t)) == Bound(env(NameAt(q)));
      ConsEquals(Bound(env(NameAt(q))), ExpandPositional(AfterNumber(t), bound), ExpandNamed(AfterName(q), env));
    } else {
      RewriteElsewhere(q, order);
      RewritePreservesMeaning(q[1..], order, env, bound);
      if AtNumber(t) {
        assert ExpandPositional(t, bound)[0] == Slot(bound, NumberAt(t));
        assert ExpandNamed(q, env)[0] == Plain('$');
      } else {
        ConsEquals(Plain(q[0]), ExpandPositional(t[1..], bound), ExpandNamed(q[1..], env));
      }
    }
  }

  lemma {:induction false} ConsEquals<T>(x: T, a: seq<T>, b: seq<T>)
    ensures [x] + a == [x] + b <==> a == b
  {
    assert ([x] + a)[1..] == a && ([x] + b)[1..] == b;
  }

  /** A name holds no `$`, so a raw number can only stand after it. */
  lemma {:induction false} NoRawThroughName(q: string, k: nat)
    requires AtName(q) && k == 1 + NameLen(q[1..])
    ensures NoRawNumber(q) <==> NoRawNumber(q[k..])
  {
    assert IsIdStart(q[1]);
    IdRunChars(q[1..]);
    NoRawOverPlain(q[1..], NameLen(q[1..]));
    assert q[1..][NameLen(q[1..])..] == q[k..];
  }

  lemma {:induction false} IdRunChars(t: string)
    ensures forall i :: 0 <= i < IdRun(t) ==> IsIdChar(t[i])
  {
    if t != "" && IsIdChar(t[0]) { IdRunChars(t[1..]); }
  }

  lemma {:induction false} NoRawOverPlain(t: string, k: nat)
    requires k <= |t| && forall i :: 0 <= i < k ==> t[i] != '$'
    ensures NoRawNumber(t) <==> NoRawNumber(t[k..])
  {
    if k == 0 {
      assert t[0..] == t;
    } else {
      NoRawOverPlain(t[1..], k - 1);
      assert t[1..][k - 1..] == t[k..];
    }
  }

  function Positions(order: seq<string>, names: seq<string>): seq<nat>
    requires forall i :: 0 <= i < |names| ==> names[i] in order
  {
    seq(|names|, i requires 0 <= i < |names| => IndexOf(order, names[i]) + 1)
  }

  lemma {:induction false} PositionsCons(order: seq<string>, name: string, names: seq<string>)
    requires name in order && forall i :: 0 <= i < |names| ==> names[i] in order
    ensures forall i :: 0 <= i < |[name] + names| ==> ([name] + names)[i] in order
    ensures Positions(order, [name] + names) == [IndexOf(order, name) + 1] + Positions(order, names)
  {}

  /** The placeholders of the compiled text are the positions of the names, in order. */
  lemma {:induction false} RewriteNumbers(q: string, order: seq<string>)
    requires Declared(q, order) && NoRawNumber(q)
    ensures Numbers(Rewrite(q, order)) == Positions(order, Names(q))
    decreases |q|
  {
    if q == "" {
    } else if AtName(q) {
      RewriteAtName(q, order);
      NoRawSuffix(q, 1 + NameLen(q[1..]));
      RewriteNumbers(AfterName(q), order);
      PositionsCons(order, NameAt(q), Names(AfterName(q)));
    } else {
      RewriteElsewhere(q, order);
      RewriteNumbers(q[1..], order);
    }
  }

  /** A compiled query uses exactly the numbers 1 to n, n the number of declared
      parameters, and occurrences of the same name share one number. */
  lemma {:induction false} CompiledNumbers(q: string, order: seq<string>, n: nat)
    requires Compile(q, order).Ok? && NoRawNumber(q)
    requires forall i, j :: 0 <= i < j < |order| ==> order[i] != order[j]
    ensures n in Numbers(Compile(q, order).value) <==> 1 <= n <= |order|
    ensures var ns := Numbers(Compile(q, order).value);
            |ns| == |Names(q)|
            && forall i, j :: 0 <= i < |ns| && 0 <= j < |ns| ==> (ns[i] == ns[j] <==> Names(q)[i] == Names(q)[j])
  {
    RewriteNumbers(q, order);
    var ns := Numbers(Compile(q, order).value);
    if 1 <= n <= |order| {
      assert order[n - 1] in Names(q);
      var i :| 0 <= i < |Names(q)| && Names(q)[i] == order[n - 1];
      assert ns[i] == n;
    }
  }

  // ---------------------------------------------------------------- binding

  datatype RunError = Duplicate | Unknown | Missing | Invalid(name: string)

  predicate Overlaps<V>(order: seq<string>, args: seq<V>, kwargs: map<string, V>) {
    exists i :: 0 <= i < |order| && i < |args| && order[i] in kwargs
  }

  predicate HasUnknown<V>(order: seq<string>, kwargs: map<string, V>) {
    exists k :: k in kwargs && k !in order
  }

  predicate HasMissing<V>(order: seq<string>, args: seq<V>, kwargs: map<string, V>) {
    exists i :: |args| <= i < |order| && order[i] !in kwargs
  }

  /** The value given for the i-th declared parameter: positional first, then by name. */
  function Given<V>(order: seq<string>, args: seq<V>, kwargs: map<string, V>, i: nat): V
    requires i < |order| && !HasMissing(order, args, kwargs)
  {
    if i < |args| then args[i] else kwargs[order[i]]
  }

  /** The inner `run` up to the query: the call's arguments become the bound list.  The
      coercion of each parameter is Pydantic's, a partial function here. */
  method Run<V>(order: seq<string>, args: seq<V>, kwargs: map<string, V>, coerce: (string, V) -> Option<V>)
      returns (r: Result<seq<V>, RunError>)
    requires forall i, j :: 0 <= i < j < |order| ==> order[i] != order[j]
    ensures r == Err(Duplicate) <==> Overlaps(order, args, kwargs)
    ensures r == Err(Unknown) <==> !Overlaps(order, args, kwargs) && HasUnknown(order, kwargs)
    ensures r == Err(Missing) <==>
              !Overlaps(order, args, kwargs) && !HasUnknown(order, kwargs) && HasMissing(order, args, kwargs)
    ensures r.Ok? ==>
              && !HasMissing(order, args, kwargs) && |r.value| == |order|
              && forall i :: 0 <= i < |order| ==> coerce(order[i], Given(order, args, kwargs, i)) == Some(r.value[i])
    ensures r.Err? && r.error.Invalid? ==>
              && !HasMissing(order, args, kwargs)
              && exists i :: 0 <= i < |order| && r.error.name == order[i]
                   && coerce(order[i], Given(order, args, kwargs, i)).None?
                   && forall j :: 0 <= j < i ==> coerce(order[j], Given(order, args, kwargs, j)).Some?
  {
    var values := Zip(order, args);
    if exists k :: k in values && k in kwargs { return Err(Duplicate); }
    assert !Overlaps(order, args, kwargs);
    values := values + kwargs;
    if exists k :: k in values && k !in order {
      return Err(Unknown);
    }
    assert !HasUnknown(order, kwargs);
    if exists i :: 0 <= i < |order| && order[i] !in values {
      return Err(Missing);
    }
    assert !HasMissing(order, args, kwargs);
    forall i | 0 <= i < |order| ensures values[order[i]] == Given(order, args, kwargs, i) {}
    r := Bind(order, values, coerce);
  }

  /** dict(zip(order, args)): surplus positional arguments are dropped. */
  method Zip<V>(order: seq<string>, args: seq<V>) returns (values: map<string, V>)
    requires forall i, j :: 0 <= i < j < |order| ==> order[i] != order[j]
    ensures forall k :: k in values <==> exists j :: 0 <= j < |order| && j < |args| && order[j] == k
    ensures forall j :: 0 <= j < |order| && j < |args| ==> order[j] in values && values[order[j]] == args[j]
  {
    values := map[];
    var n := if |order| < |args| then |order| else |args|;
    for i := 0 to n
      invariant forall k :: k in values <==> exists j :: 0 <= j < i && order[j] == k
      invariant forall j :: 0 <= j < i ==> order[j] in values && values[order[j]] == args[j]
    {
      values := values[order[i] := args[i]];
    }
  }

  /** The list comprehension over the declared names, which raises at the first value that
      cannot be coerced. */
  method Bind<V>(order: seq<string>, values: map<string, V>, coerce: (string, V) -> Option<V>) returns (r: Result<seq<V>, RunError>)
    requires forall i :: 0 <= i < |order| ==> order[i] in values
    ensures r.Ok? ==> |r.value| == |order| && forall i :: 0 <= i < |order| ==> coerce(order[i], values[order[i]]) == Some(r.value[i])
    ensures r.Err? ==>
              && r.error.Invalid?
              && exists i :: 0 <= i < |order| && r.error.name == order[i]
                   && coerce(order[i], values[order[i]]).None?
                   && forall j :: 0 <= j < i ==> coerce(order[j], values[order[j]]).Some?
  {
    var bound := [];
    for i := 0 to |order|
      invariant |bound| == i
      invariant forall j :: 0 <= j < i ==> coerce(order[j], values[order[j]]) == Some(bound[j])
    {
      var c := coerce(order[i], values[order[i]]);
      if c.None? { return Err(Invalid(order[i])); }
      bound := bound + [c.value];
    }
    return Ok(bound);
  }

  /** Whenever `run` does not raise, the text and list that go to Postgres mean the query as
      written, with each name standing for its coerced value. */
  lemma {:induction false} CompiledCallMeansTheQuery<V>(q: string, order: seq<string>, args: seq<V>, kwargs: map<string, V>,
                                     coerce: (string, V) -> Option<V>, bound: seq<V>, env: string -> V)
    requires Compile(q, order).Ok? && !HasMissing(order, args, kwargs) && |bound| == |order|
    requires forall i :: 0 <= i < |order| ==> coerce(order[i], Given(order, args, kwargs, i)) == Some(bound[i])
    requires forall i :: 0 <= i < |order| ==> coerce(order[i], Given(order, args, kwargs, i)) == Some(env(order[i]))
    ensures ExpandPositional(Compile(q, order).value, bound) == ExpandNamed(q, env) <==> NoRawNumber(q)
  {
    forall i | 0 <= i < |order| ensures bound[i] == env(order[i]) {
      assert Some(bound[i]) == Some(env(order[i]));
    }
    RewritePreservesMeaning(q, order, env, bound);
  }

  /** A raw $2 mixed with a named parameter is taken over as it is, and then means something
      else, whatever the values. */
  lemma {:induction false} RawNumberIsNotRejected<V>(q: string, text: string, env: string -> V, bound: seq<V>)
    requires q == "$2$a" && text == "$2$1" && BoundAs(["a"], env, bound)
    ensures Compile(q, ["a"]) == Ok(text)
    ensures ExpandPositional(text, bound) != ExpandNamed(q, env)
  {
    RawNumberCompiles(q, text);
    RewritePreservesMeaning(q, ["a"], env, bound);
  }

  lemma {:induction false} RawNumberCompiles(q: string, text: string)
    requires q == "$2$a" && text == "$2$1"
    ensures Declared(q, ["a"]) && Rewrite(q, ["a"]) == text && Compile(q, ["a"]) == Ok(text)
    ensures !NoRawNumber(q)
  {
    var rest, name := q[1..], q[2..];
    assert rest[1..] == name == "$a";
    NamedOnce(name);
    assert Names(rest) == Names(name) && Names(q) == Names(rest);
    assert Names(q)[0] == "a" && "a" in Names(q);
    RewriteElsewhere(rest, ["a"]);
    RewriteElsewhere(q, ["a"]);
    assert Rewrite(rest, ["a"]) == ['2'] + Rewrite(name, ["a"]);
    assert Rewrite(q, ["a"]) == ['$'] + Rewrite(rest, ["a"]);
  }

  /** The named part of that query. */
  lemma {:induction false} NamedOnce(name: string)
    requires name == "$a"
    ensures AtName(name) && Names(name) == ["a"]
    ensures Declared(name, ["a"]) && Rewrite(name, ["a"]) == "$1"
  {
    assert name[1..] == "a";
    assert NameLen("a") == 1 && NameAt(name) == "a" && AfterName(name) == "";
    assert Names(name) == ["a"] + Names("");
    RewriteAtName(name, ["a"]);
    assert Decimal(1) == "1";
    assert IndexOf(["a"], "a") == 0;
    assert Rewrite(name, ["a"]) == "$" + "1" + Rewrite("", ["a"]);
  }
}
