/** Signatures of service-to-service calls: runtimes/core/src/api/svcauth.rs, and `_sign` of
    runtimes/python/python/vignemale/call.py, which builds the same message.  HMAC-SHA256
    and SHA-256 are parameters. */
module SvcAuth {
  import opened Decimals
  import opened Text
  import opened Wrappers

  type Byte = c: char | c as int < 256 witness 'a'
  type Bytes = seq<Byte>

  /** A hash in hexadecimal: no line end in it. */
  type HashText = s: Bytes | '\n' !in s witness ""

  type MacText = s: Bytes | s != "" witness "0"

  /** mac(secret, message) and sha(data), both in hexadecimal. */
  datatype Crypto = Crypto(mac: (string, string) -> MacText, sha: string -> HashText)

  // ---------------------------------------------------------------- the message

  /** What is signed, from the two hashes. */
  function Message(date: string, caller: string, endpoint: string, bodyHash: string, authHash: string): string {
    date + "\n" + (caller + "\n" + (endpoint + "\n" + bodyHash + "\n" + authHash))
  }

  function Sign(c: Crypto, secret: string, date: string, caller: string, endpoint: string, body: string, auth: string): MacText {
    c.mac(secret, Message(date, caller, endpoint, c.sha(body), c.sha(auth)))
  }

  /** The text that is signed: five lines, with the hashes of body and identity in this order. */
  lemma {:induction false} SignedText(c: Crypto, secret: string, date: string, caller: string, endpoint: string, body: string, auth: string)
    ensures Sign(c, secret, date, caller, endpoint, body, auth)
            == c.mac(secret, Join([date, caller, endpoint, c.sha(body), c.sha(auth)], "\n"))
  {
    var b, a := c.sha(body), c.sha(auth);
    assert [date, caller, endpoint, b, a][1..] == [caller, endpoint, b, a] && [caller, endpoint, b, a][1..] == [endpoint, b, a];
    assert [endpoint, b, a][1..] == [b, a] && [b, a][1..] == [a];
    calc {
      Join([date, caller, endpoint, b, a], "\n");
      date + "\n" + Join([caller, endpoint, b, a], "\n");
      date + "\n" + (caller + "\n" + Join([endpoint, b, a], "\n"));
      date + "\n" + (caller + "\n" + (endpoint + "\n" + Join([b, a], "\n")));
      date + "\n" + (caller + "\n" + (endpoint + "\n" + (b + "\n" + a)));
      { Assoc(endpoint + "\n", b + "\n", a); Assoc(endpoint + "\n", b, "\n"); assert endpoint + "\n" + (b + "\n" + a) == endpoint + "\n" + b + "\n" + a; }
      Message(date, caller, endpoint, b, a);
    }
  }

  lemma {:induction false} CutFirst(a: string, b: string, x: string, y: string)
    requires '\n' !in a && '\n' !in b && a + "\n" + x == b + "\n" + y
    ensures a == b && x == y
  {
    SplitFirst(a, '\n', x);
    SplitFirst(b, '\n', y);
    assert a == Split(a + "\n" + x, '\n')[0] == b;
    assert x == (a + "\n" + x)[|a| + 1..] == y;
  }

  lemma {:induction false} CutLast(x: string, y: string, a: string, b: string)
    requires '\n' !in a && '\n' !in b && x + "\n" + a == y + "\n" + b
    ensures x == y && a == b
  {
    SplitConcat(x, '\n', a);
    SplitConcat(y, '\n', b);
    SplitFirst(a, '\n', "");
    SplitFirst(b, '\n', "");
    var s := x + "\n" + a;
    var parts := Split(s, '\n');
    assert parts[|parts| - 1] == a && parts[|parts| - 1] == b;
    assert x == s[..|s| - |a| - 1] == y;
  }

  /** The message determines its five parts, whatever the endpoint contains, as long as date
      and caller are single lines (a hash always is). */
  lemma {:induction false} MessageIsInjective(d: string, c: string, e: string, b: string, a: string, d': string, c': string, e': string, b': string, a': string)
    requires forall s :: s in {d, c, b, a, d', c', b', a'} ==> '\n' !in s
    requires Message(d, c, e, b, a) == Message(d', c', e', b', a')
    ensures d == d' && c == c' && e == e' && b == b' && a == a'
  {
    var x, x' := e + "\n" + b + "\n" + a, e' + "\n" + b' + "\n" + a';
    CutFirst(d, d', c + "\n" + x, c' + "\n" + x');
    CutFirst(c, c', x, x');
    CutLast(e + "\n" + b, e' + "\n" + b', a, a');
    CutLast(e, e', b, b');
  }

  /** A caller of two lines would not be told from another endpoint. */
  lemma {:induction false} TwoLineCaller(d: string, b: string, a: string)
    ensures Message(d, "p\nq", "r", b, a) == Message(d, "p", "q\nr", b, a)
  {
    var rest := "\n" + b + "\n" + a;
    assert "p\nq" + "\n" + ("r" + "\n" + b + "\n" + a) == "p" + "\n" + ("q\nr" + "\n" + b + "\n" + a);
  }

  // ---------------------------------------------------------------- comparing signatures

  /** x ^ y and x | y on numbers of `bits` bits. */
  function Xor(x: nat, y: nat, bits: nat): nat {
    if bits == 0 then 0 else 2 * Xor(x / 2, y / 2, bits - 1) + if x % 2 == y % 2 then 0 else 1
  }

  function Or(x: nat, y: nat, bits: nat): nat {
    if bits == 0 then 0 else 2 * Or(x / 2, y / 2, bits - 1) + if x % 2 == 0 && y % 2 == 0 then 0 else 1
  }

  function Pow2(n: nat): nat { if n == 0 then 1 else 2 * Pow2(n - 1) }

  lemma {:induction false} XorIsZero(x: nat, y: nat, bits: nat)
    requires x < Pow2(bits) && y < Pow2(bits)
    ensures Xor(x, y, bits) == 0 <==> x == y
    ensures Xor(x, y, bits) < Pow2(bits)
  {
    if bits > 0 { XorIsZero(x / 2, y / 2, bits - 1); }
  }

  lemma {:induction false} OrIsZero(x: nat, y: nat, bits: nat)
    requires x < Pow2(bits) && y < Pow2(bits)
    ensures Or(x, y, bits) == 0 <==> x == 0 && y == 0
    ensures Or(x, y, bits) < Pow2(bits)
  {
    if bits > 0 { OrIsZero(x / 2, y / 2, bits - 1); }
  }

  lemma {:induction false} ByteRange()
    ensures Pow2(8) == 256
  {
    assert Pow2(2) == 4;
    assert Pow2(4) == 16;
    assert Pow2(6) == 64;
  }

  /** The fold of ct_eq, from an accumulator. */
  function Differences(a: Bytes, b: Bytes, acc: nat): nat
    requires |a| == |b|
  {
    if a == [] then acc else Differences(a[1..], b[1..], Or(acc, Xor(a[0] as nat, b[0] as nat, 8), 8))
  }

  function CtEq(a: Bytes, b: Bytes): bool { |a| == |b| && Differences(a, b, 0) == 0 }

  lemma {:induction false} DifferencesZero(a: Bytes, b: Bytes, acc: nat)
    requires |a| == |b| && acc < 256
    ensures Differences(a, b, acc) == 0 <==> acc == 0 && a == b
  {
    ByteRange();
    if a != [] {
      var x, y := a[0] as nat, b[0] as nat;
      XorIsZero(x, y, 8);
      OrIsZero(acc, Xor(x, y, 8), 8);
      DifferencesZero(a[1..], b[1..], Or(acc, Xor(x, y, 8), 8));
      assert a == [a[0]] + a[1..] && b == [b[0]] + b[1..];
    }
  }

  /** The comparison that takes the same time whatever differs is equality. */
  lemma {:induction false} CtEqIsEquality(a: Bytes, b: Bytes)
    ensures CtEq(a, b) <==> a == b
  {
    if |a| == |b| { DifferencesZero(a, b, 0); }
  }

  // ---------------------------------------------------------------- dates

  const MIN64 := -0x8000_0000_0000_0000
  const MAX64 := 0x7FFF_FFFF_FFFF_FFFF

  predicate AllDigits(s: string) { forall i :: 0 <= i < |s| ==> IsDigit(s[i]) }

  /** str::parse::<i64>: an optional sign, digits, and no overflow. */
  function ParseI64(s: string): Option<int> {
    var signed := s != "" && (s[0] == '-' || s[0] == '+');
    var digits := if signed then s[1..] else s;
    if digits == "" || !AllDigits(digits) then None
    else
      var v: int := Value(digits);
      var n := if s[0] == '-' then -v else v;
      if MIN64 <= n <= MAX64 then Some(n) else None
  }

  /** A date as the signer writes it reads back. */
  lemma {:induction false} DateReadsBack(now: nat)
    requires now <= MAX64
    ensures ParseI64(Decimal(now)) == Some(now) && '\n' !in Decimal(now)
  {
    DecimalRoundTrip(now);
  }

  /** Of the decimal numbers, with or without a sign, exactly those of 64 bits are read, and
      as what they denote. */
  lemma {:induction false} ParsesExactly64Bits(n: nat)
    ensures ParseI64(Decimal(n)) == if n <= MAX64 then Some(n) else None
    ensures ParseI64("+" + Decimal(n)) == if n <= MAX64 then Some(n) else None
    ensures ParseI64("-" + Decimal(n)) == if n <= MAX64 + 1 then Some(0 - n) else None
  {
    DecimalRoundTrip(n);
    assert ("+" + Decimal(n))[1..] == Decimal(n) && ("-" + Decimal(n))[1..] == Decimal(n);
  }

  /** The difference of two i64 in a release build, where it wraps around. */
  function WrappingSub(a: int, b: int): int {
    var d := a - b;
    if d > MAX64 then d - 0x1_0000_0000_0000_0000 else if d < MIN64 then d + 0x1_0000_0000_0000_0000 else d
  }

  /** i64::abs in a release build: MIN has no positive counterpart and stays itself. */
  function WrappingAbs(a: int): int { if a < 0 && a != MIN64 then -a else a }

  predicate InTolerance(now: int, ts: int) { WrappingAbs(WrappingSub(now, ts)) <= 120 }

  /** The clock check accepts exactly the dates within 120 seconds, and one more: the one
      that is 2^63 seconds away, where the difference wraps to a number without absolute
      value. */
  lemma {:induction false} ToleranceIs120(now: int, ts: int)
    requires 0 <= now < MAX64 - 120 && MIN64 <= ts <= MAX64
    ensures InTolerance(now, ts) <==> -120 <= now - ts <= 120 || ts == now + MIN64
  {}

  // ---------------------------------------------------------------- verification

  datatype VerifyError = InvalidDate | OutOfTolerance | InvalidSignature

  /** Some accepted secret signs this call in this way. */
  predicate SignedBySome(c: Crypto, secrets: seq<string>, date: string, caller: string, endpoint: string, body: string, auth: string, signature: Bytes) {
    exists i :: 0 <= i < |secrets| && Sign(c, secrets[i], date, caller, endpoint, body, auth) == signature
  }

  /** What verify_any must answer: the date, then the clock, then the secrets. */
  function Verdict(c: Crypto, secrets: seq<string>, date: string, caller: string, endpoint: string, body: string, auth: string, signature: Bytes, now: int): Result<(), VerifyError> {
    var ts := ParseI64(date);
    if ts.None? then Err(InvalidDate)
    else if !InTolerance(now, ts.value) then Err(OutOfTolerance)
    else if !SignedBySome(c, secrets, date, caller, endpoint, body, auth, signature) then Err(InvalidSignature)
    else Ok(())
  }

  /** verify_any: accepts if and only if the date parses, is in tolerance, and the signature is
      the one that some accepted secret gives. */
  method VerifyAny(c: Crypto, secrets: seq<string>, date: string, caller: string, endpoint: string, body: string, auth: string, signature: Bytes, now: int)
    returns (r: Result<(), VerifyError>)
    ensures r == Verdict(c, secrets, date, caller, endpoint, body, auth, signature, now)
    ensures r == Err(InvalidDate) <==> ParseI64(date).None?
    ensures r == Err(OutOfTolerance) <==> ParseI64(date).Some? && !InTolerance(now, ParseI64(date).value)
    ensures r.Ok? <==> && ParseI64(date).Some? && InTolerance(now, ParseI64(date).value)
                       && exists i :: 0 <= i < |secrets| && c.mac(secrets[i], Join([date, caller, endpoint, c.sha(body), c.sha(auth)], "\n")) == signature
  {
    var ts := ParseI64(date);
    if ts.None? { return Err(InvalidDate); }
    if !InTolerance(now, ts.value) { return Err(OutOfTolerance); }
    var i := 0;
    while i < |secrets|
      invariant i <= |secrets|
      invariant forall j :: 0 <= j < i ==> Sign(c, secrets[j], date, caller, endpoint, body, auth) != signature
      invariant forall j :: 0 <= j < i ==> c.mac(secrets[j], Join([date, caller, endpoint, c.sha(body), c.sha(auth)], "\n")) != signature
    {
      var expected := Sign(c, secrets[i], date, caller, endpoint, body, auth);
      CtEqIsEquality(expected, signature);
      SignedText(c, secrets[i], date, caller, endpoint, body, auth);
      if CtEq(expected, signature) { return Ok(()); }
      i := i + 1;
    }
    return Err(InvalidSignature);
  }

  /** No two keys and messages have one code, no two texts one hash. */
  ghost predicate CollisionFree(c: Crypto) {
    && (forall k: string, m: string, k': string, m': string :: c.mac(k, m) == c.mac(k', m') ==> k == k' && m == m')
    && (forall x: string, y: string :: c.sha(x) == c.sha(y) ==> x == y)
  }

  /** Without collisions, what was signed with one secret for one call verifies for a call if
      and only if that secret is accepted, the date is in tolerance, and the call is the same
      in every part: date, caller, endpoint, body and identity. */
  lemma {:induction false} VerifiesExactlyWhatWasSigned(c: Crypto, secret: string, date: string, caller: string, endpoint: string, body: string, auth: string,
    secrets: seq<string>, date': string, caller': string, endpoint': string, body': string, auth': string, now: int)
    requires CollisionFree(c)
    requires '\n' !in date && '\n' !in caller && '\n' !in date' && '\n' !in caller'
    ensures Verdict(c, secrets, date', caller', endpoint', body', auth', Sign(c, secret, date, caller, endpoint, body, auth), now).Ok?
            <==> ParseI64(date').Some? && InTolerance(now, ParseI64(date').value) && secret in secrets
                 && date' == date && caller' == caller && endpoint' == endpoint && body' == body && auth' == auth
  {
    var signature := Sign(c, secret, date, caller, endpoint, body, auth);
    if i :| 0 <= i < |secrets| && Sign(c, secrets[i], date', caller', endpoint', body', auth') == signature {
      SameSignature(c, secrets[i], date', caller', endpoint', body', auth', secret, date, caller, endpoint, body, auth);
    }
    if secret in secrets {
      var i :| 0 <= i < |secrets| && secrets[i] == secret;
      assert date' == date && caller' == caller && endpoint' == endpoint && body' == body && auth' == auth ==>
        Sign(c, secrets[i], date', caller', endpoint', body', auth') == signature;
    }
  }

  lemma {:induction false} SameSignature(c: Crypto, k: string, d: string, p: string, e: string, b: string, a: string, k': string, d': string, p': string, e': string, b': string, a': string)
    requires CollisionFree(c) && '\n' !in d && '\n' !in p && '\n' !in d' && '\n' !in p'
    requires Sign(c, k, d, p, e, b, a) == Sign(c, k', d', p', e', b', a')
    ensures k == k' && d == d' && p == p' && e == e' && b == b' && a == a'
  {
    MessageIsInjective(d, p, e, c.sha(b), c.sha(a), d', p', e', c.sha(b'), c.sha(a'));
  }

  // ---------------------------------------------------------------- secrets

  /** char::is_whitespace, which str::trim removes. */
  predicate IsWhite(c: char) {
    var n := c as int;
    9 <= n <= 13 || n == 32 || n == 0x85 || n == 0xA0 || n == 0x1680 || 0x2000 <= n <= 0x200A
    || n == 0x2028 || n == 0x2029 || n == 0x202F || n == 0x205F || n == 0x3000
  }

  function TrimStart(s: string): string { if s != "" && IsWhite(s[0]) then TrimStart(s[1..]) else s }
  function TrimEnd(s: string): string { if s != "" && IsWhite(s[|s| - 1]) then TrimEnd(s[..|s| - 1]) else s }
  function Trim(s: string): string { TrimEnd(TrimStart(s)) }

  predicate AllWhite(s: string) { forall i :: 0 <= i < |s| ==> IsWhite(s[i]) }

  /** Trimming takes white space off both ends and nothing else. */
  lemma {:induction false} TrimMeaning(s: string) returns (a: string, b: string)
    ensures s == a + Trim(s) + b && AllWhite(a) && AllWhite(b)
    ensures Trim(s) != "" ==> !IsWhite(Trim(s)[0]) && !IsWhite(Trim(s)[|Trim(s)| - 1])
  {
    var t := TrimStart(s);
    a := TrimStartCuts(s);
    b := TrimEndCuts(t);
    Assoc(a, Trim(s), b);
  }

  lemma {:induction false} TrimStartCuts(s: string) returns (a: string)
    ensures s == a + TrimStart(s) && AllWhite(a) && (TrimStart(s) != "" ==> !IsWhite(TrimStart(s)[0]))
  {
    a := "";
    if s != "" && IsWhite(s[0]) {
      var rest := TrimStartCuts(s[1..]);
      a := [s[0]] + rest;
    }
  }

  lemma {:induction false} TrimEndCuts(s: string) returns (b: string)
    ensures s == TrimEnd(s) + b && AllWhite(b)
    ensures TrimEnd(s) != "" ==> !IsWhite(TrimEnd(s)[|TrimEnd(s)| - 1]) && TrimEnd(s)[0] == s[0]
  {
    b := "";
    if s != "" && IsWhite(s[|s| - 1]) {
      var rest := TrimEndCuts(s[..|s| - 1]);
      b := rest + [s[|s| - 1]];
      assert s == s[..|s| - 1] + [s[|s| - 1]];
      Assoc(TrimEnd(s), rest, [s[|s| - 1]]);
    }
  }

  function TrimmedParts(parts: seq<string>): seq<string> {
    if parts == [] then []
    else TrimmedParts(parts[..|parts| - 1]) + if Trim(parts[|parts| - 1]) == "" then [] else [Trim(parts[|parts| - 1])]
  }

  /** The current secret, then the previous ones. */
  function AcceptedSecrets(current: Option<string>, previous: Option<string>): seq<string> {
    (if current.Some? && current.value != "" then [current.value] else [])
    + if previous.Some? then TrimmedParts(Split(previous.value, ',')) else []
  }

  predicate TrimsTo(parts: seq<string>, s: string) {
    exists i :: 0 <= i < |parts| && Trim(parts[i]) == s
  }

  lemma {:induction false} TrimsToLast(parts: seq<string>, s: string)
    requires parts != []
    ensures TrimsTo(parts, s) <==> TrimsTo(parts[..|parts| - 1], s) || Trim(parts[|parts| - 1]) == s
  {
    var init := parts[..|parts| - 1];
    assert forall i :: 0 <= i < |init| ==> init[i] == parts[i];
  }

  lemma {:induction false} TrimmedPartsAre(parts: seq<string>, s: string)
    ensures s in TrimmedParts(parts) <==> s != "" && TrimsTo(parts, s)
  {
    if parts != [] {
      TrimmedPartsAre(parts[..|parts| - 1], s);
      TrimsToLast(parts, s);
    }
  }

  /** A secret is accepted if and only if it is not empty and is the current one, as it stands,
      or one of the comma-separated previous ones, trimmed; so rotating the current secret to
      the previous list keeps it accepted. */
  lemma {:induction false} AcceptedAre(current: Option<string>, previous: Option<string>, s: string)
    ensures s in AcceptedSecrets(current, previous) <==>
            s != "" && (current == Some(s) || (previous.Some? && TrimsTo(Split(previous.value, ','), s)))
  {
    if previous.Some? { TrimmedPartsAre(Split(previous.value, ','), s); }
    var own := if current.Some? && current.value != "" then [current.value] else [];
    assert s in own <==> s != "" && current == Some(s);
  }

  /** accepted_secrets_from_env */
  method AcceptedSecretsFromEnv(current: Option<string>, previous: Option<string>) returns (secrets: seq<string>)
    ensures secrets == AcceptedSecrets(current, previous)
  {
    secrets := [];
    if current.Some? && current.value != "" { secrets := secrets + [current.value]; }
    if previous.Some? {
      ghost var own := secrets;
      var parts := Split(previous.value, ',');
      var i := 0;
      while i < |parts|
        invariant i <= |parts| && secrets == own + TrimmedParts(parts[..i])
      {
        assert parts[..i + 1][..i] == parts[..i];
        var s := Trim(parts[i]);
        Assoc(own, TrimmedParts(parts[..i]), [s]);
        if s != "" { secrets := secrets + [s]; }
        i := i + 1;
      }
      assert parts[..i] == parts;
    }
  }
}
