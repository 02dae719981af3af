/**
 The PHC-style encoding of an Argon2id password hash: printing, parsing, verification and
 rehash detection. Argon2id itself is a parameter, the salt is an argument.
 */
module PasswordPolicy {
  import opened Prelude
  import opened Base64

  const ARGON2_VERSION := 19

  type Uint32 = x: int | 0 <= x < 0x1_0000_0000

  type Uint8 = x: int | 0 <= x < 256

  datatype Params = Params(memory: Uint32, iterations: Uint32, parallelism: Uint8,
                           saltLength: Uint32, keyLength: Uint32)

  /** A parsed hash: work factors, salt and derived key. */
  datatype Decoded = Decoded(params: Params, salt: seq<Byte>, key: seq<Byte>)

  /** The key derivation: password, salt, iterations, memory, parallelism, key length. */
  type Kdf = (string, seq<Byte>, Uint32, Uint32, Uint8, Uint32) -> seq<Byte>

  ghost predicate DerivesRequestedLength(kdf: Kdf) {
    forall p, s, t, m, l, n :: |kdf(p, s, t, m, l, n)| == n
  }

  // Decimal fields

  function FormatDecimal(n: nat): string {
    if n < 10 then [('0' as int + n) as char]
    else FormatDecimal(n / 10) + [('0' as int + n % 10) as char]
  }

  /** The character classes of the pattern. */
  datatype Class = Decimal | StdBase64 | Pad

  predicate In(k: Class, c: char) {
    match k
    case Decimal => '0' <= c <= '9'
    case StdBase64 => InAlphabet(Std, c)
    case Pad => c == '='
  }

  predicate AllIn(k: Class, s: string) {
    forall i :: 0 <= i < |s| ==> In(k, s[i])
  }

  function ParseDecimal(s: string): nat
    requires AllIn(Decimal, s)
  {
    if s == "" then 0
    else ParseDecimal(s[..|s| - 1]) * 10 + (s[|s| - 1] as int - '0' as int)
  }

  /** `strconv.ParseUint(s, 10, bits)` on a digit string, with the limit 2^bits. */
  function ParseUint(s: string, limit: nat): Option<nat>
    requires AllIn(Decimal, s)
  {
    if s != "" && ParseDecimal(s) < limit then Some(ParseDecimal(s)) else None
  }

  // The pattern ^\$argon2id\$v=(\d+)\$m=(\d+),t=(\d+),p=(\d+)\$([A-Za-z0-9+/]+=*)\$([A-Za-z0-9+/]+=*)$

  /** The literals in front of the four decimal fields. */
  const LABELS: seq<string> := ["$argon2id$v=", "$m=", ",t=", ",p="]

  /** How many leading characters of `s` are in class `k`. */
  function Span(k: Class, s: string): (n: nat)
    ensures n <= |s|
    ensures AllIn(k, s[..n])
    ensures n < |s| ==> !In(k, s[n])
  {
    if s == "" || !In(k, s[0]) then 0 else 1 + Span(k, s[1..])
  }

  /** A captured group and the text after it. */
  datatype Capture = NoMatch | Match(group: string, rest: string)

  /** The literal `prefix` followed by `\d+`. */
  function Digits(prefix: string, s: string): (r: Capture)
    ensures r.Match? ==> AllIn(Decimal, r.group)
  {
    if !(prefix <= s) then NoMatch
    else
      var t := s[|prefix|..];
      var n := Span(Decimal, t);
      if n == 0 then NoMatch else Match(t[..n], t[n..])
  }

  datatype Fields = NoFields | Fields(groups: seq<string>, rest: string)

  /** The labelled decimal fields, in order. */
  function DigitFields(labels: seq<string>, s: string): (r: Fields)
    ensures r.Fields? ==> |r.groups| == |labels| && forall i :: 0 <= i < |labels| ==> AllIn(Decimal, r.groups[i])
  {
    if labels == [] then Fields([], s)
    else
      var d := Digits(labels[0], s);
      if d.NoMatch? then NoFields
      else
        var r := DigitFields(labels[1..], d.rest);
        if r.NoFields? then NoFields else Fields([d.group] + r.groups, r.rest)
  }

  /** The literal `$` followed by `[A-Za-z0-9+/]+=*`. */
  function Blob(s: string): Capture {
    if s == "" || s[0] != '$' then NoMatch
    else
      var t := s[1..];
      var n := Span(StdBase64, t);
      var m := Span(Pad, t[n..]);
      if n == 0 then NoMatch else Match(t[..n + m], t[n + m..])
  }

  datatype Submatches = Submatches(decimals: seq<string>, salt: string, key: string)

  /** `phcPattern.FindStringSubmatch`. */
  function FindSubmatches(s: string): (r: Option<Submatches>)
    ensures r.Some? ==> |r.value.decimals| == |LABELS|
    ensures r.Some? ==> forall i :: 0 <= i < |LABELS| ==> AllIn(Decimal, r.value.decimals[i])
  {
    var f := DigitFields(LABELS, s);
    if f.NoFields? then None else
    var salt := Blob(f.rest);
    if salt.NoMatch? then None else
    var key := Blob(salt.rest);
    if key.NoMatch? || key.rest != "" then None else
    Some(Submatches(f.groups, salt.group, key.group))
  }

  /** The pattern of the users.password_hash CHECK constraint, the same as the parser's. */
  predicate AcceptedByColumn(hash: string) {
    FindSubmatches(hash).Some?
  }

  function TrimPad(s: string): string {
    if s != "" && s[|s| - 1] == '=' then TrimPad(s[..|s| - 1]) else s
  }

  function PrintFields(labels: seq<string>, values: seq<nat>): string
    requires |labels| == |values|
  {
    if labels == [] then ""
    else labels[0] + FormatDecimal(values[0]) + PrintFields(labels[1..], values[1..])
  }

  function Factors(p: Params): seq<nat> {
    [ARGON2_VERSION, p.memory, p.iterations, p.parallelism]
  }

  function PrintBlob(b: seq<Byte>): string {
    ['$'] + Base64.Encode(Std, b)
  }

  function Encode(params: Params, salt: seq<Byte>, key: seq<Byte>): string {
    PrintFields(LABELS, Factors(params)) + (PrintBlob(salt) + PrintBlob(key))
  }

  /** The version and the three work factors, in the widths the parser asks for. */
  function ParseFactors(f: seq<string>): Option<(nat, Uint32, Uint32, Uint8)>
    requires |f| == |LABELS| && forall i :: 0 <= i < |f| ==> AllIn(Decimal, f[i])
  {
    var version := ParseUint(f[0], 0x8000_0000_0000_0000);
    var memory := ParseUint(f[1], 0x1_0000_0000);
    var iterations := ParseUint(f[2], 0x1_0000_0000);
    var parallelism := ParseUint(f[3], 256);
    if version.None? || memory.None? || iterations.None? || parallelism.None? then None
    else Some((version.value, memory.value, iterations.value, parallelism.value))
  }

  /** None stands for ErrMalformedHash. */
  function Decode(encoded: string): Option<Decoded> {
    var found := FindSubmatches(encoded);
    if found.None? then None else
    var factors := ParseFactors(found.value.decimals);
    if factors.None? || factors.value.0 != ARGON2_VERSION then None else
    var salt := DecodeRaw(Std, TrimPad(found.value.salt));
    if salt.None? then None else
    var key := DecodeRaw(Std, TrimPad(found.value.key));
    if key.None? || salt.value == [] || key.value == [] then None else
    Some(Decoded(Params(factors.value.1, factors.value.2, factors.value.3,
                        |salt.value| % 0x1_0000_0000, |key.value| % 0x1_0000_0000), salt.value, key.value))
  }

  /** `Hash` with the random salt as an argument. */
  function Hash(kdf: Kdf, password: string, params: Params, salt: seq<Byte>): string {
    Encode(params, salt, kdf(password, salt, params.iterations, params.memory, params.parallelism, params.keyLength))
  }

  /** The constant-time comparison of the candidate's derived key with the stored one. */
  predicate KeyMatches(kdf: Kdf, d: Decoded, password: string) {
    kdf(password, d.salt, d.params.iterations, d.params.memory, d.params.parallelism, |d.key| % 0x1_0000_0000) == d.key
  }

  /** None stands for ErrMalformedHash, with a false answer. */
  function Verify(kdf: Kdf, encoded: string, password: string): Option<bool> {
    match Decode(encoded)
    case None => None
    case Some(d) => Some(KeyMatches(kdf, d, password))
  }

  predicate Weaker(p: Params, current: Params) {
    p.memory < current.memory || p.iterations < current.iterations ||
    p.parallelism < current.parallelism || p.keyLength < current.keyLength
  }

  predicate NeedsRehash(encoded: string, current: Params) {
    match Decode(encoded)
    case None => true
    case Some(d) => Weaker(d.params, current)
  }

  // Proofs

  /** Printing a number and reading it back. */
  lemma {:induction false} DecimalRoundTrip(n: nat)
    ensures FormatDecimal(n) != "" && AllIn(Decimal, FormatDecimal(n))
    ensures ParseDecimal(FormatDecimal(n)) == n
  {
    if n >= 10 {
      DecimalRoundTrip(n / 10);
      var s := FormatDecimal(n);
      assert s[..|s| - 1] == FormatDecimal(n / 10);
    } else {
      assert FormatDecimal(n)[..0] == "";
    }
  }

  /** A run of class `k` before a text that starts otherwise is spanned exactly. */
  lemma {:induction false} SpanOfRun(k: Class, run: string, rest: string)
    requires AllIn(k, run)
    requires rest == "" || !In(k, rest[0])
    ensures Span(k, run + rest) == |run|
  {
    if run == "" {
      assert run + rest == rest;
    } else {
      assert (run + rest)[1..] == run[1..] + rest;
      SpanOfRun(k, run[1..], rest);
    }
  }

  lemma DigitsMatch(prefix: string, n: nat, rest: string)
    requires rest == "" || !In(Decimal, rest[0])
    ensures Digits(prefix, prefix + FormatDecimal(n) + rest) == Match(FormatDecimal(n), rest)
  {
    DecimalRoundTrip(n);
    var run := FormatDecimal(n);
    var s := prefix + run + rest;
    SpanOfRun(Decimal, run, rest);
    assert s[|prefix|..] == run + rest;
    assert (run + rest)[..|run|] == run && (run + rest)[|run|..] == rest;
  }

  function Formatted(values: seq<nat>): seq<string> {
    if values == [] then [] else [FormatDecimal(values[0])] + Formatted(values[1..])
  }

  /** The labelled fields are read back one by one, whatever follows them. */
  lemma {:induction false} FieldsMatch(labels: seq<string>, values: seq<nat>, rest: string)
    requires |labels| == |values|
    requires forall i :: 0 <= i < |labels| ==> labels[i] != "" && !In(Decimal, labels[i][0])
    requires rest == "" || !In(Decimal, rest[0])
    ensures DigitFields(labels, PrintFields(labels, values) + rest) ==
            Fields(Formatted(values), rest)
  {
    if labels == [] {
      assert PrintFields(labels, values) + rest == rest;
    } else {
      var tail := PrintFields(labels[1..], values[1..]) + rest;
      assert PrintFields(labels, values) + rest == labels[0] + FormatDecimal(values[0]) + tail;
      if |labels| > 1 {
        assert PrintFields(labels[1..], values[1..])[0] == labels[1][0];
      } else {
        assert PrintFields(labels[1..], values[1..]) == "";
      }
      DigitsMatch(labels[0], values[0], tail);
      FieldsMatch(labels[1..], values[1..], rest);
    }
  }

  lemma BlobMatch(b: seq<Byte>, rest: string)
    requires b != []
    requires rest == "" || rest[0] == '$'
    ensures Blob(PrintBlob(b) + rest) == Match(Base64.Encode(Std, b), rest)
    ensures TrimPad(Base64.Encode(Std, b)) == Base64.Encode(Std, b)
  {
    hide Base64.Encode, AllIn, Span;
    var run := Base64.Encode(Std, b);
    EncodedIsUnpadded(b);
    assert (PrintBlob(b) + rest)[1..] == run + rest;
    SpanOfRun(StdBase64, run, rest);
    assert (run + rest)[|run|..] == rest && (run + rest)[..|run|] == run;
    assert Span(Pad, rest) == 0 by {
      SpanOfRun(Pad, "", rest);
      assert "" + rest == rest;
    }
  }

  lemma EncodedIsUnpadded(b: seq<Byte>)
    requires b != []
    ensures var run := Base64.Encode(Std, b); AllIn(StdBase64, run) && run != "" && TrimPad(run) == run
  {
    hide Base64.Encode;
    var run := Base64.Encode(Std, b);
    EncodeInAlphabet(Std, b);
    assert In(StdBase64, run[|run| - 1]);
  }

  lemma EmptyBlobFails(rest: string)
    requires rest == "" || rest[0] == '$'
    ensures Blob(PrintBlob([]) + rest).NoMatch?
  {
    assert (PrintBlob([]) + rest)[1..] == rest;
  }

  lemma LabelsAreLabels()
    ensures forall i :: 0 <= i < |LABELS| ==> LABELS[i] != "" && !In(Decimal, LABELS[i][0])
  {
  }

  lemma FormattedFactors(p: Params)
    ensures Formatted(Factors(p)) ==
            [FormatDecimal(ARGON2_VERSION), FormatDecimal(p.memory), FormatDecimal(p.iterations),
             FormatDecimal(p.parallelism)]
  {
    assert Factors(p)[1..] == [p.memory, p.iterations, p.parallelism];
    assert Factors(p)[1..][1..] == [p.iterations, p.parallelism];
    assert Factors(p)[1..][1..][1..] == [p.parallelism];
    assert Factors(p)[1..][1..][1..][1..] == [];
    assert Formatted(Factors(p)[1..][1..][1..]) == [FormatDecimal(p.parallelism)];
    assert Formatted(Factors(p)[1..][1..]) == [FormatDecimal(p.iterations), FormatDecimal(p.parallelism)];
  }

  lemma ParsedFactors(p: Params, f: seq<string>)
    requires f == [FormatDecimal(ARGON2_VERSION), FormatDecimal(p.memory), FormatDecimal(p.iterations),
                   FormatDecimal(p.parallelism)]
    ensures forall i :: 0 <= i < |f| ==> AllIn(Decimal, f[i])
    ensures ParseFactors(f) == Some((ARGON2_VERSION, p.memory, p.iterations, p.parallelism))
  {
    DecimalRoundTrip(ARGON2_VERSION);
    DecimalRoundTrip(p.memory);
    DecimalRoundTrip(p.iterations);
    DecimalRoundTrip(p.parallelism);
  }

  lemma PrintedFieldsMatch(p: Params, rest: string)
    requires rest != "" && rest[0] == '$'
    ensures var f := DigitFields(LABELS, PrintFields(LABELS, Factors(p)) + rest);
            f.Fields? && f.rest == rest
            && ParseFactors(f.groups) == Some((ARGON2_VERSION, p.memory, p.iterations, p.parallelism))
  {
    LabelsAreLabels();
    FieldsMatch(LABELS, Factors(p), rest);
    FormattedFactors(p);
    ParsedFactors(p, Formatted(Factors(p)));
  }

  /** Parsing undoes printing, for all work factors and every nonempty salt and key. */
  lemma DecodeUndoesEncode(params: Params, salt: seq<Byte>, key: seq<Byte>)
    requires salt != [] && key != []
    ensures AcceptedByColumn(Encode(params, salt, key))
    ensures Decode(Encode(params, salt, key)) ==
            Some(Decoded(params.(saltLength := |salt| % 0x1_0000_0000, keyLength := |key| % 0x1_0000_0000), salt, key))
  {
    PrintedFieldsMatch(params, PrintBlob(salt) + PrintBlob(key));
    BlobMatch(salt, PrintBlob(key));
    assert PrintBlob(key) + "" == PrintBlob(key);
    BlobMatch(key, "");
    Base64.RoundTrip(Std, salt);
    Base64.RoundTrip(Std, key);
  }

  /** Printing what was parsed and parsing it again changes nothing, whatever spelling was parsed first. */
  lemma ReprintIsStable(encoded: string)
    ensures match Decode(encoded)
            case None => true
            case Some(d) => Decode(Encode(d.params, d.salt, d.key)) == Some(d)
  {
    hide FindSubmatches, ParseFactors, DecodeRaw, Encode;
    match Decode(encoded)
    case None =>
    case Some(d) => DecodeUndoesEncode(d.params, d.salt, d.key);
  }

  /** An empty salt or key is printed but never parsed back: exactly the nonempty ones survive. */
  lemma DecodesExactlyNonempty(params: Params, salt: seq<Byte>, key: seq<Byte>)
    ensures Decode(Encode(params, salt, key)).Some? <==> salt != [] && key != []
  {
    if salt != [] && key != [] {
      DecodeUndoesEncode(params, salt, key);
    } else {
      PrintedFieldsMatch(params, PrintBlob(salt) + PrintBlob(key));
      if salt == [] {
        EmptyBlobFails(PrintBlob(key));
      } else {
        BlobMatch(salt, PrintBlob(key));
        assert PrintBlob([]) + "" == PrintBlob([]);
        EmptyBlobFails("");
      }
    }
  }

  /** What a successful Hash stores. */
  function Stored(kdf: Kdf, password: string, params: Params, salt: seq<Byte>): Decoded {
    var key := kdf(password, salt, params.iterations, params.memory, params.parallelism, params.keyLength);
    Decoded(params.(saltLength := |salt| % 0x1_0000_0000, keyLength := |key| % 0x1_0000_0000), salt, key)
  }

  lemma DecodeUndoesHash(kdf: Kdf, password: string, params: Params, salt: seq<Byte>)
    requires DerivesRequestedLength(kdf)
    requires salt != [] && params.keyLength > 0
    ensures Decode(Hash(kdf, password, params, salt)) == Some(Stored(kdf, password, params, salt))
  {
    DecodeUndoesEncode(params, salt, Stored(kdf, password, params, salt).key);
  }

  /** Verify answers exactly whether the two passwords derive the same key from the stored salt. */
  lemma VerifyHashed(kdf: Kdf, password: string, params: Params, salt: seq<Byte>, candidate: string)
    requires DerivesRequestedLength(kdf)
    requires salt != [] && params.keyLength > 0
    ensures Verify(kdf, Hash(kdf, password, params, salt), password) == Some(true)
    ensures Verify(kdf, Hash(kdf, password, params, salt), candidate) ==
            Some(kdf(candidate, salt, params.iterations, params.memory, params.parallelism, params.keyLength) ==
                 kdf(password, salt, params.iterations, params.memory, params.parallelism, params.keyLength))
  {
    hide Decode, Hash;
    DecodeUndoesHash(kdf, password, params, salt);
  }

  /** A text is left alone exactly when it is a hash whose factors and key length are all at least the current ones. */
  lemma LeftAloneExactly(encoded: string, current: Params)
    ensures !NeedsRehash(encoded, current) <==>
            match Decode(encoded)
            case Some(d) =>
              && current.memory <= d.params.memory && current.iterations <= d.params.iterations
              && current.parallelism <= d.params.parallelism && current.keyLength <= d.params.keyLength
            case None => false
  {
    hide Decode;
  }

  /** A fresh hash needs rehashing exactly when the policy has since raised a work factor or the key length. */
  lemma NeedsRehashExactly(kdf: Kdf, password: string, params: Params, salt: seq<Byte>, current: Params)
    requires DerivesRequestedLength(kdf)
    requires salt != [] && params.keyLength > 0
    ensures NeedsRehash(Hash(kdf, password, params, salt), current) <==>
            || params.memory < current.memory || params.iterations < current.iterations
            || params.parallelism < current.parallelism || params.keyLength < current.keyLength
    ensures !NeedsRehash(Hash(kdf, password, params, salt), params)
  {
    hide Decode, Hash;
    DecodeUndoesHash(kdf, password, params, salt);
  }

  lemma FieldsRead(m: nat, t: nat, l: nat)
    ensures PrintFields(LABELS, [ARGON2_VERSION, m, t, l]) ==
            "$argon2id$v=" + FormatDecimal(ARGON2_VERSION)
            + ("$m=" + FormatDecimal(m) + (",t=" + FormatDecimal(t) + (",p=" + FormatDecimal(l))))
  {
    hide PrintFields, FormatDecimal;
    assert LABELS == ["$argon2id$v="] + ["$m=", ",t=", ",p="];
    assert [ARGON2_VERSION, m, t, l] == [ARGON2_VERSION] + [m, t, l];
    assert ["$m=", ",t=", ",p="] == ["$m="] + [",t=", ",p="] && [m, t, l] == [m] + [t, l];
    assert [",t=", ",p="] == [",t="] + [",p="] && [t, l] == [t] + [l];
    assert [",p="] == [",p="] + [] && [l] == [l] + [];
    FirstField("$argon2id$v=", ARGON2_VERSION, ["$m=", ",t=", ",p="], [m, t, l]);
    FirstField("$m=", m, [",t=", ",p="], [t, l]);
    FirstField(",t=", t, [",p="], [l]);
    FirstField(",p=", l, [], []);
    NoFieldsLeft();
  }

  lemma NoFieldsLeft()
    ensures PrintFields([], []) == ""
  {
  }

  /** What is printed, spelled out. */
  lemma EncodeReads(params: Params, salt: seq<Byte>, key: seq<Byte>)
    ensures Encode(params, salt, key) ==
            "$argon2id$v=19" + ("$m=" + FormatDecimal(params.memory) + (",t=" + FormatDecimal(params.iterations)
                                + (",p=" + FormatDecimal(params.parallelism))))
            + ("$" + Base64.Encode(Std, salt) + ("$" + Base64.Encode(Std, key)))
  {
    hide Base64.Encode, PrintFields;
    FieldsRead(params.memory, params.iterations, params.parallelism);
    assert FormatDecimal(ARGON2_VERSION) == "19";
    hide FormatDecimal;
    assert "$argon2id$v=" + "19" == "$argon2id$v=19";
  }

  lemma FirstField(name: string, value: nat, labels: seq<string>, values: seq<nat>)
    requires |labels| == |values|
    ensures PrintFields([name] + labels, [value] + values) ==
            name + FormatDecimal(value) + PrintFields(labels, values)
  {
    assert ([name] + labels)[1..] == labels && ([value] + values)[1..] == values;
  }

  /** A hash of another version of the algorithm is not parsed, and so never verified. */
  lemma OtherVersionsAreRefused(version: nat, params: Params, salt: seq<Byte>, key: seq<Byte>)
    requires salt != [] && key != []
    ensures var values := [version, params.memory, params.iterations, params.parallelism];
            Decode(PrintFields(LABELS, values) + (PrintBlob(salt) + PrintBlob(key))).Some? <==> version == 19
  {
    hide Base64.Encode, DecodeRaw, TrimPad;
    var values := [version, params.memory, params.iterations, params.parallelism];
    if version == 19 {
      DecodeUndoesEncode(params, salt, key);
    } else {
      var rest := PrintBlob(salt) + PrintBlob(key);
      LabelsAreLabels();
      FieldsMatch(LABELS, values, rest);
      DecimalRoundTrip(version);
      var printed := PrintFields(LABELS, values) + rest;
      hide DigitFields, PrintFields, PrintBlob, ParseDecimal, FormatDecimal, AllIn;
      if Decode(printed).Some? {
        DecodedVersion(printed);
      }
    }
  }

  /** Whatever parses carries this version. */
  lemma DecodedVersion(s: string)
    requires Decode(s).Some?
    ensures var f := DigitFields(LABELS, s);
            f.Fields? && AllIn(Decimal, f.groups[0]) && ParseDecimal(f.groups[0]) == ARGON2_VERSION
  {
    hide DigitFields, Blob, TrimPad, DecodeRaw, ParseDecimal, AllIn;
  }
}
