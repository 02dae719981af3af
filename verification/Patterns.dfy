/** The regular expressions the stores check identifiers against, and that the checks accept exactly what they match. */
module Patterns {
  import opened Prelude
  import O = NotifyOutbox
  import L = NotifyDelivery
  import P = NotifyPreferences
  import D = NotifyDevices
  import W = PasswordPolicy

  /** A bracket expression as its ranges, with how often it may repeat. */
  datatype Piece = Piece(ranges: seq<(char, char)>, least: nat, most: Option<nat>)

  predicate InRanges(c: char, ranges: seq<(char, char)>) {
    exists k :: 0 <= k < |ranges| && ranges[k].0 <= c <= ranges[k].1
  }

  predicate AllInRanges(s: string, ranges: seq<(char, char)>) {
    forall i :: 0 <= i < |s| ==> InRanges(s[i], ranges)
  }

  /** The whole text can be cut into one run for each piece. */
  ghost predicate Matches(s: string, pieces: seq<Piece>) {
    if pieces == [] then s == ""
    else exists n :: Cut(s, pieces[0], n) && Matches(s[n..], pieces[1..])
  }

  predicate Cut(s: string, p: Piece, n: int) {
    0 <= n <= |s| && p.least <= n && (p.most.Some? ==> n <= p.most.value) && AllInRanges(s[..n], p.ranges)
  }

  function Hex(n: nat): Piece {
    Piece([('0', '9'), ('a', 'f')], n, Some(n))
  }

  function Literal(c: char): Piece {
    Piece([(c, c)], 1, Some(1))
  }

  /** A piece of fixed length leaves no choice. */
  lemma FixedPiece(s: string, p: Piece, rest: seq<Piece>)
    requires p.most == Some(p.least)
    ensures Matches(s, [p] + rest) <==> Cut(s, p, p.least) && Matches(s[p.least..], rest)
  {
    assert ([p] + rest)[1..] == rest;
    assert ([p] + rest)[0] == p;
  }

  lemma LastPiece(s: string, p: Piece)
    ensures Matches(s, [p]) <==>
            p.least <= |s| && (p.most.Some? ==> |s| <= p.most.value) && AllInRanges(s, p.ranges)
  {
    assert [p][1..] == [];
    assert s[..|s|] == s;
    if Cut(s, p, |s|) {
      assert s[|s|..] == "";
      assert Matches(s[|s|..], [p][1..]);
    }
  }

  lemma LiteralCut(s: string, c: char)
    ensures Cut(s, Literal(c), 1) <==> s != "" && s[0] == c
  {
    if s != "" {
      assert s[..1][0] == s[0];
      assert Literal(c).ranges[0] == (c, c);
    }
  }

  lemma HexCut(s: string, n: nat)
    ensures Cut(s, Hex(n), n) <==> |s| >= n && forall i :: 0 <= i < n ==> O.LowerHex(s[i])
  {
    var ranges := Hex(n).ranges;
    assert ranges[0] == ('0', '9') && ranges[1] == ('a', 'f');
    if |s| >= n {
      forall i | 0 <= i < n ensures InRanges(s[i], ranges) <==> O.LowerHex(s[i]) {
      }
      forall i | 0 <= i < n ensures s[..n][i] == s[i] {
      }
    }
  }

  lemma HexText(s: string, n: nat)
    ensures Matches(s, [Hex(n)]) <==> |s| == n && forall i :: 0 <= i < n ==> O.LowerHex(s[i])
  {
    hide Matches;
    LastPiece(s, Hex(n));
    HexCut(s, n);
    if |s| == n {
      assert s[..n] == s;
    }
  }

  function Spelling(word: string, rest: seq<Piece>): seq<Piece> {
    if word == "" then rest else [Literal(word[0])] + Spelling(word[1..], rest)
  }

  lemma {:induction false} SpellingFirst(s: string, word: string, rest: seq<Piece>)
    ensures Matches(s, Spelling(word, rest)) <==> word <= s && Matches(s[|word|..], rest)
  {
    hide Matches, Cut;
    if word == "" {
      assert s[0..] == s;
    } else {
      FixedPiece(s, Literal(word[0]), Spelling(word[1..], rest));
      LiteralCut(s, word[0]);
      if s != "" {
        SpellingFirst(s[1..], word[1..], rest);
        assert word <= s <==> s[0] == word[0] && word[1..] <= s[1..] by {
          if s[0] == word[0] && word[1..] <= s[1..] {
            assert word == [word[0]] + word[1..] && s == [s[0]] + s[1..];
          }
        }
        if word <= s {
          assert s[1..][|word[1..]|..] == s[|word|..];
        }
      }
    }
  }

  function AfterHex(n: nat, rest: seq<Piece>): seq<Piece> {
    [Hex(n)] + rest
  }

  lemma HexFirst(s: string, n: nat, rest: seq<Piece>)
    ensures Matches(s, AfterHex(n, rest)) <==>
            |s| >= n && (forall i :: 0 <= i < n ==> O.LowerHex(s[i])) && Matches(s[n..], rest)
  {
    hide Matches, Cut;
    FixedPiece(s, Hex(n), rest);
    HexCut(s, n);
  }

  /** `^evt_[0-9a-f]{64}$` */
  function EventIds(): seq<Piece> {
    Spelling("evt_", [Hex(64)])
  }

  lemma EventIdsMatch(e: O.EventId)
    ensures O.ValidEventId(e) <==> Matches(e.text, EventIds())
  {
    hide Matches, Spelling;
    SpellingFirst(e.text, "evt_", [Hex(64)]);
    if "evt_" <= e.text {
      HexText(e.text[4..], 64);
    }
  }

  /** `^[0-9a-f]{8}-[0-9a-f]{4}-[0-9a-f]{4}-[0-9a-f]{4}-[0-9a-f]{12}$` */
  function Tokens(): seq<Piece> {
    AfterHex(8, Dashed(4, Dashed(4, Dashed(4, Spelling("-", [Hex(12)])))))
  }

  function Dashed(n: nat, rest: seq<Piece>): seq<Piece> {
    Spelling("-", AfterHex(n, rest))
  }

  lemma DashedFirst(s: string, n: nat, rest: seq<Piece>)
    ensures Matches(s, Dashed(n, rest)) <==>
            |s| >= n + 1 && s[0] == '-' && (forall i :: 1 <= i < n + 1 ==> O.LowerHex(s[i]))
            && Matches(s[n + 1..], rest)
  {
    hide Matches, Spelling, AfterHex;
    SpellingFirst(s, "-", AfterHex(n, rest));
    if "-" <= s {
      HexFirst(s[1..], n, rest);
      if |s| >= n + 1 {
        assert s[1..][n..] == s[n + 1..];
        assert forall i :: 1 <= i < n + 1 ==> s[1..][i - 1] == s[i];
      }
    }
  }

  lemma TokensMatch(t: O.Token)
    ensures O.ValidToken(t) <==> Matches(t.text, Tokens())
  {
    hide Matches, Spelling, AfterHex, Dashed;
    var s := t.text;
    var last := Spelling("-", [Hex(12)]);
    HexFirst(s, 8, Dashed(4, Dashed(4, Dashed(4, last))));
    if |s| >= 8 {
      DashedFirst(s[8..], 4, Dashed(4, Dashed(4, last)));
    }
    if |s| >= 13 {
      assert s[8..][5..] == s[13..];
      DashedFirst(s[13..], 4, Dashed(4, last));
    }
    if |s| >= 18 {
      assert s[13..][5..] == s[18..];
      DashedFirst(s[18..], 4, last);
    }
    if |s| >= 23 {
      assert s[18..][5..] == s[23..];
      SpellingFirst(s[23..], "-", [Hex(12)]);
    }
    if |s| >= 24 {
      assert s[23..][1..] == s[24..];
      HexText(s[24..], 12);
    }
    if |s| == 36 {
      TokenGroups(t);
    }
  }

  lemma TokenGroups(t: O.Token)
    requires |t.text| == 36
    ensures var s := t.text;
            O.ValidToken(t) <==>
            && (forall i :: 0 <= i < 8 ==> O.LowerHex(s[i]))
            && s[8..][0] == s[13..][0] == s[18..][0] == s[23..][0] == '-'
            && (forall i :: 1 <= i < 5 ==> O.LowerHex(s[8..][i]))
            && (forall i :: 1 <= i < 5 ==> O.LowerHex(s[13..][i]))
            && (forall i :: 1 <= i < 5 ==> O.LowerHex(s[18..][i]))
            && forall i :: 0 <= i < 12 ==> O.LowerHex(s[24..][i])
  {
    hide O.LowerHex;
    var s := t.text;
    if !O.ValidToken(t) {
      var i :| 0 <= i < 36 && (if i in {8, 13, 18, 23} then s[i] != '-' else !O.LowerHex(s[i]));
      assert 8 <= i < 13 ==> s[i] == s[8..][i - 8];
      assert 13 <= i < 18 ==> s[i] == s[13..][i - 13];
      assert 18 <= i < 23 ==> s[i] == s[18..][i - 18];
      assert 23 <= i ==> s[i] == s[23..][i - 23];
      assert 24 <= i ==> s[i] == s[24..][i - 24];
    }
  }

  /** A head and a tail of at most `most` characters. */
  lemma HeadAndTail(s: string, head: seq<(char, char)>, tail: seq<(char, char)>, most: nat)
    ensures Matches(s, [Piece(head, 1, Some(1)), Piece(tail, 0, Some(most))]) <==>
            && 1 <= |s| <= most + 1 && InRanges(s[0], head) && forall i :: 1 <= i < |s| ==> InRanges(s[i], tail)
  {
    hide Matches, InRanges;
    var p, q := Piece(head, 1, Some(1)), Piece(tail, 0, Some(most));
    assert [p, q] == [p] + [q];
    FixedPiece(s, p, [q]);
    if s != "" {
      LastPiece(s[1..], q);
      assert s[..1][0] == s[0];
      assert forall i :: 1 <= i < |s| ==> s[1..][i - 1] == s[i];
    }
  }

  /** `^[a-z][a-z0-9_]{0,63}$` */
  function ErrorCodes(): seq<Piece> {
    [Piece([('a', 'z')], 1, Some(1)), Piece([('a', 'z'), ('0', '9'), ('_', '_')], 0, Some(63))]
  }

  lemma ErrorCodesMatch(code: string)
    ensures L.ValidErrorCode(code) <==> Matches(code, ErrorCodes())
  {
    hide Matches;
    var head, tail := [('a', 'z')], [('a', 'z'), ('0', '9'), ('_', '_')];
    HeadAndTail(code, head, tail, 63);
    assert head[0] == ('a', 'z');
    assert tail[0] == ('a', 'z') && tail[1] == ('0', '9') && tail[2] == ('_', '_');
  }

  /** `^[A-Za-z0-9][A-Za-z0-9_-]{0,127}$` */
  function ListIds(): seq<Piece> {
    [Piece([('A', 'Z'), ('a', 'z'), ('0', '9')], 1, Some(1)),
     Piece([('A', 'Z'), ('a', 'z'), ('0', '9'), ('_', '_'), ('-', '-')], 0, Some(127))]
  }

  lemma ListIdsMatch(id: string)
    ensures P.ValidId(id) <==> Matches(id, ListIds())
  {
    hide Matches;
    var head := [('A', 'Z'), ('a', 'z'), ('0', '9')];
    var tail := [('A', 'Z'), ('a', 'z'), ('0', '9'), ('_', '_'), ('-', '-')];
    HeadAndTail(id, head, tail, 127);
    assert head[0] == ('A', 'Z') && head[1] == ('a', 'z') && head[2] == ('0', '9');
    assert tail[0] == ('A', 'Z') && tail[1] == ('a', 'z') && tail[2] == ('0', '9') && tail[3] == ('_', '_')
           && tail[4] == ('-', '-');
  }

  /** `^[A-Za-z0-9][A-Za-z0-9 ._-]{0,63}$` */
  function Platforms(): seq<Piece> {
    [Piece([('A', 'Z'), ('a', 'z'), ('0', '9')], 1, Some(1)),
     Piece([('A', 'Z'), ('a', 'z'), ('0', '9'), (' ', ' '), ('.', '.'), ('_', '_'), ('-', '-')], 0, Some(63))]
  }

  lemma PlatformsMatch(platform: string)
    ensures D.ValidPlatform(platform) <==> platform == "" || Matches(platform, Platforms())
  {
    hide Matches;
    var head := [('A', 'Z'), ('a', 'z'), ('0', '9')];
    var tail := [('A', 'Z'), ('a', 'z'), ('0', '9'), (' ', ' '), ('.', '.'), ('_', '_'), ('-', '-')];
    HeadAndTail(platform, head, tail, 63);
    assert head[0] == ('A', 'Z') && head[1] == ('a', 'z') && head[2] == ('0', '9');
    assert tail[0] == ('A', 'Z') && tail[1] == ('a', 'z') && tail[2] == ('0', '9') && tail[3] == (' ', ' ')
           && tail[4] == ('.', '.') && tail[5] == ('_', '_') && tail[6] == ('-', '-');
    var others := " ._-";
    assert others[0] == ' ' && others[1] == '.' && others[2] == '_' && others[3] == '-';
  }

  // The pattern of a password hash

  const DIGITS := [('0', '9')]
  const BASE64 := [('A', 'Z'), ('a', 'z'), ('0', '9'), ('+', '+'), ('/', '/')]
  const PADS := [('=', '=')]

  function OneOrMore(ranges: seq<(char, char)>): Piece {
    Piece(ranges, 1, None)
  }

  function Any(ranges: seq<(char, char)>): Piece {
    Piece(ranges, 0, None)
  }

  /** The label and `\d+`, and what follows. */
  function Field(prefix: string, rest: seq<Piece>): seq<Piece> {
    Spelling(prefix, [OneOrMore(DIGITS)] + rest)
  }

  /** `\$([A-Za-z0-9+/]+=*)`, and what follows. */
  function BlobPieces(rest: seq<Piece>): seq<Piece> {
    Spelling("$", [OneOrMore(BASE64)] + ([Any(PADS)] + rest))
  }

  /** `^\$argon2id\$v=(\d+)\$m=(\d+),t=(\d+),p=(\d+)\$([A-Za-z0-9+/]+=*)\$([A-Za-z0-9+/]+=*)$` */
  function Hashes(): seq<Piece> {
    Field("$argon2id$v=", Field("$m=", Field(",t=", Field(",p=", BlobPieces(BlobPieces([]))))))
  }

  /** What the pieces match never starts with one of these characters. */
  ghost predicate StartsOutside(pieces: seq<Piece>, ranges: seq<(char, char)>) {
    forall t :: Matches(t, pieces) ==> t == "" || !InRanges(t[0], ranges)
  }

  /** Taking as much as possible is right when what follows cannot start with more of the same. */
  lemma LongestRun(s: string, p: Piece, rest: seq<Piece>, n: nat)
    requires p.most.None? && StartsOutside(rest, p.ranges)
    requires n <= |s| && AllInRanges(s[..n], p.ranges) && (n < |s| ==> !InRanges(s[n], p.ranges))
    ensures Matches(s, [p] + rest) <==> n >= p.least && Matches(s[n..], rest)
  {
    hide InRanges;
    assert ([p] + rest)[1..] == rest && ([p] + rest)[0] == p;
    if Matches(s, [p] + rest) {
      var m :| Cut(s, p, m) && Matches(s[m..], rest);
      assert forall i :: 0 <= i < m ==> s[..m][i] == s[i];
      assert forall i :: 0 <= i < n ==> s[..n][i] == s[i];
      assert m < |s| ==> s[m..][0] == s[m];
      assert m == n;
    }
    if n >= p.least && Matches(s[n..], rest) {
      assert Cut(s, p, n);
    }
  }

  lemma WordStartsOutside(word: string, rest: seq<Piece>, ranges: seq<(char, char)>)
    requires word != "" && !InRanges(word[0], ranges)
    ensures StartsOutside(Spelling(word, rest), ranges)
  {
    hide Matches, InRanges, Spelling;
    forall t | Matches(t, Spelling(word, rest)) ensures t == "" || !InRanges(t[0], ranges) {
      SpellingFirst(t, word, rest);
    }
  }

  lemma NothingStartsOutside(ranges: seq<(char, char)>)
    ensures StartsOutside([], ranges)
  {
  }

  lemma PadsStartOutside(rest: seq<Piece>)
    requires StartsOutside(rest, BASE64)
    ensures StartsOutside([Any(PADS)] + rest, BASE64)
  {
    var p := Any(PADS);
    assert ([p] + rest)[1..] == rest && ([p] + rest)[0] == p;
    forall t | Matches(t, [p] + rest) && t != "" ensures !InRanges(t[0], BASE64) {
      var n :| Cut(t, p, n) && Matches(t[n..], rest);
      hide Matches, InRanges;
      assert t[0..] == t;
      assert n > 0 ==> t[..n][0] == t[0];
      PadsAreNoDigits(t[0]);
    }
  }

  lemma PadsAreNoDigits(c: char)
    ensures InRanges(c, PADS) ==> !InRanges(c, BASE64)
  {
    ClassRanges(c);
  }

  lemma ClassRanges(c: char)
    ensures InRanges(c, DIGITS) <==> W.In(W.Class.Decimal, c)
    ensures InRanges(c, BASE64) <==> W.In(W.Class.StdBase64, c)
    ensures InRanges(c, PADS) <==> W.In(W.Class.Pad, c)
  {
    assert DIGITS[0] == ('0', '9') && PADS[0] == ('=', '=');
    assert BASE64[0] == ('A', 'Z') && BASE64[1] == ('a', 'z') && BASE64[2] == ('0', '9') && BASE64[3] == ('+', '+')
           && BASE64[4] == ('/', '/');
  }

  /** A scanned run is a longest one. */
  lemma SpanIsLongest(k: W.Class, ranges: seq<(char, char)>, s: string)
    requires forall c :: InRanges(c, ranges) <==> W.In(k, c)
    ensures var n := W.Span(k, s); AllInRanges(s[..n], ranges) && (n < |s| ==> !InRanges(s[n], ranges))
  {
    hide InRanges, W.In;
  }

  lemma BlobMatches(s: string, rest: seq<Piece>)
    requires StartsOutside(rest, BASE64) && StartsOutside(rest, PADS)
    ensures Matches(s, BlobPieces(rest)) <==> W.Blob(s).Match? && Matches(W.Blob(s).rest, rest)
  {
    hide Matches, StartsOutside, Spelling, W.Span, InRanges, W.In, AllInRanges;
    var tail := [Any(PADS)] + rest;
    SpellingFirst(s, "$", [OneOrMore(BASE64)] + tail);
    if "$" <= s {
      var t := s[1..];
      var n := W.Span(W.Class.StdBase64, t);
      forall c ensures InRanges(c, BASE64) <==> W.In(W.Class.StdBase64, c) { ClassRanges(c); }
      forall c ensures InRanges(c, PADS) <==> W.In(W.Class.Pad, c) { ClassRanges(c); }
      SpanIsLongest(W.Class.StdBase64, BASE64, t);
      PadsStartOutside(rest);
      LongestRun(t, OneOrMore(BASE64), tail, n);
      var m := W.Span(W.Class.Pad, t[n..]);
      SpanIsLongest(W.Class.Pad, PADS, t[n..]);
      LongestRun(t[n..], Any(PADS), rest, m);
      assert t[n..][m..] == t[n + m..];
    }
  }

  /** The pieces of the labelled decimal fields, and what follows them. */
  function FieldPieces(labels: seq<string>, rest: seq<Piece>): seq<Piece> {
    if labels == [] then rest else Field(labels[0], FieldPieces(labels[1..], rest))
  }

  lemma {:induction false} FieldsMatch(labels: seq<string>, s: string, rest: seq<Piece>)
    requires forall i :: 0 <= i < |labels| ==> labels[i] != "" && !W.In(W.Class.Decimal, labels[i][0])
    requires StartsOutside(rest, DIGITS)
    ensures Matches(s, FieldPieces(labels, rest)) <==>
            var f := W.DigitFields(labels, s); f.Fields? && Matches(f.rest, rest)
  {
    hide Matches, StartsOutside, Spelling, W.Span, InRanges, W.In, AllInRanges;
    if labels != [] {
      var more := FieldPieces(labels[1..], rest);
      SpellingFirst(s, labels[0], [OneOrMore(DIGITS)] + more);
      if labels[0] <= s {
        var t := s[|labels[0]|..];
        var n := W.Span(W.Class.Decimal, t);
        forall c ensures InRanges(c, DIGITS) <==> W.In(W.Class.Decimal, c) { ClassRanges(c); }
        SpanIsLongest(W.Class.Decimal, DIGITS, t);
        if |labels| > 1 {
          WordStartsOutside(labels[1], [OneOrMore(DIGITS)] + FieldPieces(labels[2..], rest), DIGITS);
          assert labels[1..][1..] == labels[2..];
        }
        LongestRun(t, OneOrMore(DIGITS), more, n);
        FieldsMatch(labels[1..], t[n..], rest);
      }
    }
  }

  /** The scanner of the parser accepts exactly what the pattern, which is also the column's, matches. */
  lemma HashesMatch(hash: string)
    ensures W.AcceptedByColumn(hash) <==> Matches(hash, Hashes())
  {
    hide Matches, StartsOutside, Spelling, W.Span, W.Blob, W.DigitFields, InRanges;
    var key := BlobPieces([]);
    var salt := BlobPieces(key);
    LabelsSpelled(salt);
    BlobStartsOutside([]);
    BlobStartsOutside(key);
    NothingStartsOutside(BASE64);
    NothingStartsOutside(PADS);
    W.LabelsAreLabels();
    FieldsMatch(W.LABELS, hash, salt);
    var f := W.DigitFields(W.LABELS, hash);
    if f.Fields? {
      BlobMatches(f.rest, key);
      if W.Blob(f.rest).Match? {
        BlobMatches(W.Blob(f.rest).rest, []);
        NothingMatches(W.Blob(W.Blob(f.rest).rest));
      }
    }
  }

  lemma NothingMatches(c: W.Capture)
    ensures c.Match? ==> (Matches(c.rest, []) <==> c.rest == "")
  {
  }

  lemma LabelsSpelled(rest: seq<Piece>)
    ensures Field("$argon2id$v=", Field("$m=", Field(",t=", Field(",p=", rest)))) == FieldPieces(W.LABELS, rest)
  {
    hide Field;
    var l := W.LABELS;
    assert l[1..][1..] == l[2..] && l[2..][1..] == l[3..] && l[3..][1..] == l[4..] == [];
    assert FieldPieces(l[3..], rest) == Field(",p=", rest);
    assert FieldPieces(l[2..], rest) == Field(",t=", Field(",p=", rest));
    assert FieldPieces(l[1..], rest) == Field("$m=", Field(",t=", Field(",p=", rest)));
  }

  lemma BlobStartsOutside(rest: seq<Piece>)
    ensures StartsOutside(BlobPieces(rest), DIGITS) && StartsOutside(BlobPieces(rest), BASE64)
            && StartsOutside(BlobPieces(rest), PADS)
  {
    hide StartsOutside;
    var tail := [OneOrMore(BASE64)] + ([Any(PADS)] + rest);
    ClassRanges('$');
    assert !InRanges('$', DIGITS) && !InRanges('$', BASE64) && !InRanges('$', PADS);
    WordStartsOutside("$", tail, DIGITS);
    WordStartsOutside("$", tail, BASE64);
    WordStartsOutside("$", tail, PADS);
  }
}
