/**
 Longest-match extraction of street addresses from one transcript: a tokenizer, two tries of
 dictionary names and the gap rule between words. Text is a sequence of characters, offsets
 count characters, and the Unicode classes are a parameter.
 */
module AddressCandidate {
  datatype Kind = Street | AccessRoad

  /** The Unicode tables the extractor consults. */
  datatype Unicode = Unicode(isToken: char -> bool, lower: string -> string, isUnsafe: char -> bool)

  datatype Word = Word(text: string)

  datatype Token = Token(word: Word, start: nat, end: nat)

  datatype Entry = Entry(name: string, kind: Kind)

  datatype Candidate = Candidate(houseNumber: Word, canonicalStreet: string, dictionaryKind: Kind,
                                 evidence: string, start: nat, end: nat)

  // Tokens

  ghost predicate IsRun(u: Unicode, text: string, t: Token) {
    && t.start < t.end <= |text|
    && t.word == Word(u.lower(text[t.start..t.end]))
    && (forall i :: t.start <= i < t.end ==> u.isToken(text[i]))
    && (t.start > 0 ==> !u.isToken(text[t.start - 1]))
    && (t.end < |text| ==> !u.isToken(text[t.end]))
  }

  ghost predicate InOrder(tokens: seq<Token>) {
    forall k, l :: 0 <= k < l < |tokens| ==> tokens[k].end < tokens[l].start
  }

  ghost predicate Covered(tokens: seq<Token>, i: nat) {
    exists k :: 0 <= k < |tokens| && tokens[k].start <= i < tokens[k].end
  }

  /** The tokens of a text are exactly its maximal runs of token characters, in order. */
  ghost predicate IsTokenization(u: Unicode, text: string, tokens: seq<Token>) {
    && (forall k :: 0 <= k < |tokens| ==> IsRun(u, text, tokens[k]))
    && InOrder(tokens)
    && (forall i :: 0 <= i < |text| && u.isToken(text[i]) ==> Covered(tokens, i))
  }

  method Tokenize(u: Unicode, text: string) returns (out: seq<Token>)
    ensures IsTokenization(u, text, out)
  {
    hide Covered;
    out := [];
    var start := -1;
    for i := 0 to |text|
      invariant -1 <= start < i || start == -1
      invariant forall k :: 0 <= k < |out| ==> IsRun(u, text, out[k]) && out[k].end < (if start >= 0 then start else i)
      invariant InOrder(out)
      invariant start >= 0 ==>
                (start == 0 || !u.isToken(text[start - 1])) && forall j :: start <= j < i ==> u.isToken(text[j])
      invariant start < 0 && i > 0 ==> !u.isToken(text[i - 1])
      invariant forall j :: 0 <= j < (if start >= 0 then start else i) && u.isToken(text[j]) ==> Covered(out, j)
    {
      if u.isToken(text[i]) {
        if start < 0 {
          start := i;
        }
        continue;
      }
      if start >= 0 {
        var t := Token(Word(u.lower(text[start..i])), start, i);
        AppendCovers(out, t);
        out := out + [t];
        start := -1;
      }
    }
    if start >= 0 {
      var t := Token(Word(u.lower(text[start..])), start, |text|);
      assert text[start..] == text[start..|text|];
      AppendCovers(out, t);
      out := out + [t];
    }
  }

  lemma AppendCovers(out: seq<Token>, t: Token)
    ensures forall j: nat :: Covered(out, j) || t.start <= j < t.end ==> Covered(out + [t], j)
  {
    forall j: nat | Covered(out, j) || t.start <= j < t.end
      ensures Covered(out + [t], j)
    {
      var next := out + [t];
      if Covered(out, j) {
        var k :| 0 <= k < |out| && out[k].start <= j < out[k].end;
        assert next[k] == out[k];
      } else {
        assert next[|out|] == t;
      }
    }
  }

  /** Two runs that share a character are the same run. */
  lemma RunsCoincide(u: Unicode, text: string, a: Token, b: Token)
    requires IsRun(u, text, a) && IsRun(u, text, b) && b.start <= a.start < b.end
    ensures a == b
  {
  }

  lemma RunFound(u: Unicode, text: string, from: seq<Token>, k: nat, to: seq<Token>) returns (m: nat)
    requires IsTokenization(u, text, from) && IsTokenization(u, text, to) && k < |from|
    ensures m < |to| && to[m] == from[k]
  {
    assert IsRun(u, text, from[k]);
    assert u.isToken(text[from[k].start]);
    assert Covered(to, from[k].start);
    m :| 0 <= m < |to| && to[m].start <= from[k].start < to[m].end;
    RunsCoincide(u, text, from[k], to[m]);
  }

  /** A token of one list that the other list has already passed cannot come up again. */
  lemma NotEarlier(u: Unicode, text: string, a: seq<Token>, b: seq<Token>, n: nat, m: nat)
    requires IsTokenization(u, text, a) && n < |a| && n <= |b| && a[..n] == b[..n] && m < |b| && b[m] == a[n]
    ensures m >= n
  {
    hide Covered;
    assert IsRun(u, text, a[n]);
    forall k | 0 <= k < n ensures b[k] != a[n] {
      assert b[k] == b[..n][k] == a[..n][k] == a[k];
    }
  }

  lemma NextToken(u: Unicode, text: string, a: seq<Token>, b: seq<Token>, n: nat)
    requires IsTokenization(u, text, a) && IsTokenization(u, text, b) && n < |a| && n <= |b| && a[..n] == b[..n]
    ensures n < |b| && b[n] == a[n]
  {
    hide Covered;
    var m := RunFound(u, text, a, n, b);
    NotEarlier(u, text, a, b, n, m);
    var k := RunFound(u, text, b, n, a);
    NotEarlier(u, text, b, a, n, k);
    assert IsRun(u, text, b[n]) && IsRun(u, text, a[n]);
  }

  lemma {:induction false} SamePrefix(u: Unicode, text: string, a: seq<Token>, b: seq<Token>, n: nat)
    requires IsTokenization(u, text, a) && IsTokenization(u, text, b) && n <= |a|
    ensures n <= |b| && a[..n] == b[..n]
  {
    hide IsTokenization;
    if n > 0 {
      SamePrefix(u, text, a, b, n - 1);
      NextToken(u, text, a, b, n - 1);
      assert a[..n] == a[..n - 1] + [a[n - 1]] && b[..n] == b[..n - 1] + [b[n - 1]];
    }
  }

  /** A text has exactly one tokenization. */
  lemma TokenizationUnique(u: Unicode, text: string, a: seq<Token>, b: seq<Token>)
    requires IsTokenization(u, text, a) && IsTokenization(u, text, b)
    ensures a == b
  {
    SamePrefix(u, text, a, b, |a|);
    SamePrefix(u, text, b, a, |b|);
    assert a[..|a|] == a && b[..|a|] == b;
  }

  // Tries

  /** A path from the root, read from its last word. */
  datatype Path = Root | Below(parent: Path, word: Word)

  /** The path spelled by the words of tokens start to end (exclusive). */
  function PathOf(tokens: seq<Token>, start: nat, end: nat): Path
    requires start <= end <= |tokens|
  {
    if start == end then Root else Below(PathOf(tokens, start, end - 1), tokens[end - 1].word)
  }

  datatype Listing = Listing(path: Path, entry: Entry)

  /** The dictionary entries spelled exactly by `path`, in insertion order. */
  function Spelled(dictionary: seq<Listing>, path: Path): seq<Entry> {
    if dictionary == [] then []
    else
      var n := |dictionary| - 1;
      Spelled(dictionary[..n], path) + if dictionary[n].path == path then [dictionary[n].entry] else []
  }

  lemma SpelledAppend(dictionary: seq<Listing>, l: Listing)
    ensures forall p :: Spelled(dictionary + [l], p) ==
                        if l.path == p then Spelled(dictionary, p) + [l.entry] else Spelled(dictionary, p)
  {
    assert (dictionary + [l])[..|dictionary|] == dictionary;
  }

  lemma {:induction false} SpelledIsListed(dictionary: seq<Listing>, path: Path)
    requires Spelled(dictionary, path) != []
    ensures exists d :: 0 <= d < |dictionary| && dictionary[d].path == path
  {
    var n := |dictionary| - 1;
    if dictionary[n].path != path {
      SpelledIsListed(dictionary[..n], path);
      var d :| 0 <= d < n && dictionary[..n][d].path == path;
      assert dictionary[d].path == path;
    }
  }

  class Node {
    ghost const path: Path
    var children: map<Word, Node>
    var entries: seq<Entry>

    constructor (ghost path: Path)
      ensures this.path == path && children == map[] && entries == []
    {
      this.path := path;
      children, entries := map[], [];
    }
  }

  /**
   A child of the node at `p` for the word `w` is the node at the path one word longer, and every other node is a child.
   */
  ghost predicate IsTree(root: Node, nodes: map<Path, Node>, children: map<Path, map<Word, Node>>) {
    && Root in nodes && nodes[Root] == root && children.Keys == nodes.Keys
    && (forall p, w :: p in nodes && w in children[p] ==> Below(p, w) in nodes && children[p][w] == nodes[Below(p, w)])
    && (forall p, w :: Below(p, w) in nodes ==> p in nodes && w in children[p])
  }

  lemma GrowsAsTree(root: Node, nodes: map<Path, Node>, children: map<Path, map<Word, Node>>, p: Path, w: Word,
                    next: Node)
    requires IsTree(root, nodes, children) && p in nodes && w !in children[p]
    ensures Below(p, w) !in nodes
    ensures IsTree(root, nodes[Below(p, w) := next], children[p := children[p][w := next]][Below(p, w) := map[]])
  {
  }

  /** Every dictionary entry has its node. */
  ghost predicate AllListed(dictionary: seq<Listing>, nodes: map<Path, Node>) {
    forall d :: 0 <= d < |dictionary| ==> dictionary[d].path in nodes
  }

  lemma UnlistedSpellsNothing(dictionary: seq<Listing>, nodes: map<Path, Node>, at: Path)
    requires AllListed(dictionary, nodes) && at !in nodes
    ensures Spelled(dictionary, at) == []
  {
    hide Spelled;
    if Spelled(dictionary, at) != [] {
      SpelledIsListed(dictionary, at);
    }
  }

  lemma ListedStill(dictionary: seq<Listing>, nodes: map<Path, Node>, l: Listing, next: Node)
    requires AllListed(dictionary, nodes)
    ensures l.path in nodes ==> AllListed(dictionary + [l], nodes)
    ensures AllListed(dictionary, nodes[l.path := next])
  {
  }

  class Trie {
    const root: Node
    ghost var nodes: map<Path, Node>
    ghost var children: map<Path, map<Word, Node>>
    ghost var dictionary: seq<Listing>

    /** Every node sits at its own path, with the children recorded for it and the entries its path spells. */
    ghost predicate Mirrors()
      reads this, nodes.Values
    {
      forall p :: p in nodes ==>
        p in children && nodes[p].path == p && nodes[p].children == children[p]
        && nodes[p].entries == Spelled(dictionary, p)
    }

    ghost predicate Valid()
      reads this, nodes.Values
    {
      IsTree(root, nodes, children) && AllListed(dictionary, nodes) && Mirrors()
    }

    constructor ()
      ensures Valid() && dictionary == [] && fresh(nodes.Values)
    {
      root := new Node(Root);
      new;
      nodes, children := map[Root := root], map[Root := map[]];
      dictionary := [];
    }

    /** The child of `cur` for the next word, created on demand. */
    method Step(cur: Node, w: Word) returns (next: Node)
      requires Valid() && cur.path in nodes && nodes[cur.path] == cur
      modifies this`nodes, this`children, cur`children
      ensures Valid() && dictionary == old(dictionary)
      ensures next.path == Below(cur.path, w) && next.path in nodes && nodes[next.path] == next
      ensures fresh(nodes.Values - old(nodes.Values))
    {
      hide Spelled;
      if w in cur.children {
        next := cur.children[w];
      } else {
        next := Grow(cur, w);
      }
    }

    method Grow(cur: Node, w: Word) returns (next: Node)
      requires Valid() && cur.path in nodes && nodes[cur.path] == cur && w !in cur.children
      modifies this`nodes, this`children, cur`children
      ensures Valid() && dictionary == old(dictionary)
      ensures next.path == Below(cur.path, w) && nodes == old(nodes)[next.path := next] && fresh(next)
    {
      hide Spelled, IsTree, AllListed;
      ghost var at := Below(cur.path, w);
      next := new Node(at);
      GrowsAsTree(root, nodes, children, cur.path, w, next);
      UnlistedSpellsNothing(dictionary, nodes, at);
      ListedStill(dictionary, nodes, Listing(at, Entry("", Street)), next);
      cur.children := cur.children[w := next];
      nodes, children := nodes[at := next], children[cur.path := cur.children][at := map[]];
      assert forall p :: p in old(nodes) && p != cur.path ==> nodes[p] != cur;
    }

    /** Appending the entry to the node its path leads to. */
    method Attach(cur: Node, entry: Entry)
      requires Valid() && cur.path in nodes && nodes[cur.path] == cur
      modifies this`dictionary, cur`entries
      ensures Valid() && dictionary == old(dictionary) + [Listing(cur.path, entry)]
    {
      hide Spelled, IsTree, AllListed;
      SpelledAppend(dictionary, Listing(cur.path, entry));
      ListedStill(dictionary, nodes, Listing(cur.path, entry), cur);
      cur.entries := cur.entries + [entry];
      dictionary := dictionary + [Listing(cur.path, entry)];
    }

    method Insert(tokens: seq<Token>, entry: Entry)
      requires Valid()
      modifies this, nodes.Values
      ensures Valid() && dictionary == old(dictionary) + [Listing(PathOf(tokens, 0, |tokens|), entry)]
      ensures fresh(nodes.Values - old(nodes.Values))
    {
      hide Valid, Spelled;
      RootIsAtRoot(this);
      var cur := root;
      for i := 0 to |tokens|
        invariant Valid() && dictionary == old(dictionary) && fresh(nodes.Values - old(nodes.Values))
        invariant cur.path == PathOf(tokens, 0, i) && cur.path in nodes && nodes[cur.path] == cur
      {
        cur := Step(cur, tokens[i].word);
      }
      Attach(cur, entry);
    }
  }

  // The naive specification of extraction

  datatype Transcript = Transcript(text: string, tokens: seq<Token>) {
    ghost predicate Valid() {
      InOrder(tokens) && forall k :: 0 <= k < |tokens| ==> tokens[k].start < tokens[k].end <= |text|
    }

    /** The text between token q - 1 and token q. */
    function Between(q: nat): string
      requires Valid() && 0 < q < |tokens|
    {
      text[tokens[q - 1].end..tokens[q].start]
    }
  }

  datatype Dictionary = Dictionary(streets: seq<Listing>, access: seq<Listing>)

  predicate House(w: Word) {
    w.text != "" && forall i :: 0 <= i < |w.text| ==> '0' <= w.text[i] <= '9'
  }

  /** No sign, slash or dash right before the number, and no number right before it without a barrier. */
  predicate SupportedNumber(t: Transcript, i: nat)
    requires t.Valid() && i < |t.tokens|
  {
    && (t.tokens[i].start > 0 ==> t.text[t.tokens[i].start - 1] !in "+-/\U{2212}\U{2013}\U{2014}")
    && (i > 0 && House(t.tokens[i - 1].word) ==>
          exists k :: 0 <= k < |t.Between(i)| && t.Between(i)[k] in "\n\r!?;")
  }

  /** Commas, quotes, brackets and blanks join words; a hyphen only within a street name. */
  predicate Gap(s: string, withinStreet: bool) {
    s != "" && forall k :: 0 <= k < |s| ==>
      s[k] in " \t,\"'()\U{201C}\U{201D}\U{2018}\U{2019}" || (withinStreet && s[k] == '-')
  }

  /** The words from start up to end (exclusive) are joined to the number i and to each other. */
  predicate Joined(t: Transcript, i: nat, start: nat, end: nat)
    requires t.Valid() && i <= start <= end <= |t.tokens| && start < |t.tokens| && start <= i + 1
  {
    && (start > i ==> Gap(t.Between(start), false))
    && forall q :: start < q < end ==> Gap(t.Between(q), q > i + 1)
  }

  /** The entries of one set that the words from start to j (inclusive) spell under the gap rule. */
  function Reaching(listings: seq<Listing>, t: Transcript, i: nat, start: nat, j: nat): seq<Entry>
    requires t.Valid() && i <= start <= j < |t.tokens| && start <= i + 1
  {
    if Joined(t, i, start, j + 1) then Spelled(listings, PathOf(t.tokens, start, j + 1)) else []
  }

  /**
   All entries that match for the number i and end at token j: street names follow the number, access roads contain it.
   */
  function Matching(d: Dictionary, t: Transcript, i: nat, j: nat): seq<Entry>
    requires t.Valid() && i <= j < |t.tokens|
  {
    (if i + 1 <= j then Reaching(d.streets, t, i, i + 1, j) else []) + Reaching(d.access, t, i, i, j)
  }

  /** The greatest token up to j at which some entry for the number i ends, or -1. */
  function LongestEnd(d: Dictionary, t: Transcript, i: nat, j: int): (end: int)
    requires t.Valid() && i <= |t.tokens| && j < |t.tokens|
    ensures end == -1 || i <= end <= j
    decreases j + 1
  {
    hide Matching;
    if j < i then -1 else if Matching(d, t, i, j) != [] then j else LongestEnd(d, t, i, j - 1)
  }

  /** It is an end, and no later one is. */
  lemma {:induction false} LongestEndIsLongest(d: Dictionary, t: Transcript, i: nat, j: int)
    requires t.Valid() && i <= |t.tokens| && j < |t.tokens|
    ensures var end := LongestEnd(d, t, i, j);
            && (end >= 0 ==> Matching(d, t, i, end) != [])
            && forall k :: i <= k <= j && k > end ==> Matching(d, t, i, k) == []
    decreases j + 1
  {
    hide Matching;
    if i <= j && Matching(d, t, i, j) == [] {
      LongestEndIsLongest(d, t, i, j - 1);
    }
  }

  /** The number i is supported and exactly one entry reaches its longest match. */
  predicate Emits(d: Dictionary, t: Transcript, i: nat)
    requires t.Valid() && i < |t.tokens|
  {
    hide Matching, LongestEnd, House, SupportedNumber;
    var end := LongestEnd(d, t, i, |t.tokens| - 1);
    House(t.tokens[i].word) && SupportedNumber(t, i) && end >= 0 && |Matching(d, t, i, end)| == 1
  }

  lemma SpanInText(t: Transcript, i: nat, end: nat)
    requires t.Valid() && i <= end < |t.tokens|
    ensures t.tokens[i].start < t.tokens[end].end <= |t.text|
  {
    assert i < end ==> t.tokens[i].end < t.tokens[end].start;
  }

  function CandidateAt(d: Dictionary, t: Transcript, i: nat): (c: Candidate)
    requires t.Valid() && i < |t.tokens| && Emits(d, t, i)
  {
    hide Matching, LongestEnd, House, SupportedNumber, Transcript.Valid;
    var end := LongestEnd(d, t, i, |t.tokens| - 1);
    var e := Matching(d, t, i, end)[0];
    var (from, to) := (t.tokens[i].start, t.tokens[end].end);
    SpanInText(t, i, end);
    Candidate(t.tokens[i].word, e.name, e.kind, t.text[from..to], from, to)
  }

  /** Candidates from token i on; after a match the scan resumes behind it. */
  function Extraction(d: Dictionary, t: Transcript, i: nat): seq<Candidate>
    requires t.Valid() && i <= |t.tokens|
    decreases |t.tokens| - i
  {
    hide Matching, LongestEnd, House, SupportedNumber, CandidateAt, Transcript.Valid;
    if i == |t.tokens| then []
    else if Emits(d, t, i) then
      [CandidateAt(d, t, i)] + Extraction(d, t, LongestEnd(d, t, i, |t.tokens| - 1) + 1)
    else Extraction(d, t, i + 1)
  }

  ghost predicate Lists(u: Unicode, name: string, kind: Kind, l: Listing) {
    l.entry == Entry(name, kind) &&
    exists tokens :: IsTokenization(u, name, tokens) && l.path == PathOf(tokens, 0, |tokens|)
  }

  ghost predicate ListsNames(u: Unicode, names: seq<string>, kind: Kind, dictionary: seq<Listing>) {
    |dictionary| == |names| && forall k :: 0 <= k < |names| ==> Lists(u, names[k], kind, dictionary[k])
  }

  /** What one descent of one trie may do to the best match so far, having seen the ends below upto. */
  ghost predicate Improves(listings: seq<Listing>, t: Transcript, i: nat, start: nat, upto: nat,
                           end0: int, best0: seq<Entry>, end: int, best: seq<Entry>)
    requires t.Valid() && i <= start <= i + 1 && start <= upto <= |t.tokens|
  {
    && end0 <= end
    && (forall k :: start <= k < upto && k > end ==> Reaching(listings, t, i, start, k) == [])
    && (end > end0 ==> start <= end < upto && Reaching(listings, t, i, start, end) == best != [])
    && (end == end0 ==> best == if start <= end0 < upto then best0 + Reaching(listings, t, i, start, end0) else best0)
  }

  class Extractor {
    const streets: Trie
    const access: Trie

    ghost predicate Valid()
      reads this, streets, access, streets.nodes.Values, access.nodes.Values
    {
      streets.Valid() && access.Valid()
    }

    ghost function Known(): Dictionary
      reads streets, access
    {
      Dictionary(streets.dictionary, access.dictionary)
    }

    /** The dictionary names, tokenized and inserted one by one. */
    constructor New(u: Unicode, streetNames: seq<string>, accessNames: seq<string>)
      ensures Valid()
      ensures ListsNames(u, streetNames, Street, streets.dictionary)
      ensures ListsNames(u, accessNames, AccessRoad, access.dictionary)
    {
      hide Trie.Valid, IsTokenization, PathOf;
      streets := new Trie();
      access := new Trie();
      new;
      Fill(u, streets, streetNames, Street);
      Fill(u, access, accessNames, AccessRoad);
    }

    static method Fill(u: Unicode, trie: Trie, names: seq<string>, kind: Kind)
      requires trie.Valid() && trie.dictionary == []
      modifies trie, trie.nodes.Values
      ensures trie.Valid() && ListsNames(u, names, kind, trie.dictionary)
      ensures fresh(trie.nodes.Values - old(trie.nodes.Values))
    {
      hide Trie.Valid, IsTokenization, PathOf;
      for k := 0 to |names|
        invariant trie.Valid() && fresh(trie.nodes.Values - old(trie.nodes.Values))
        invariant ListsNames(u, names[..k], kind, trie.dictionary)
      {
        var tokens := Tokenize(u, names[k]);
        trie.Insert(tokens, Entry(names[k], kind));
        assert Lists(u, names[k], kind, trie.dictionary[k]);
      }
      assert names[..|names|] == names;
    }

    /** One descent: street names start behind the number, access roads at it. */
    method Search(trie: Trie, t: Transcript, i: nat, start: nat, end0: int, best0: seq<Entry>)
      returns (end: int, best: seq<Entry>)
      requires trie.Valid() && t.Valid() && i <= start <= i + 1 && start <= |t.tokens|
      ensures Improves(trie.dictionary, t, i, start, |t.tokens|, end0, best0, end, best)
    {
      hide Improves, Joined, Gap, Spelled, Reaching, Trie.Valid, Transcript.Valid;
      end, best := end0, best0;
      if start >= |t.tokens| {
        NothingSeen(trie.dictionary, t, i, start, end0, best0);
        return;
      }
      NothingSeen(trie.dictionary, t, i, start, end0, best0);
      if start > i && !Gap(t.Between(start), false) {
        BrokenOff(t, i, start, start);
        SpelledReaching(trie.dictionary, t, i, start, start);
        NothingMore(trie.dictionary, t, i, start, start, end0, best0, end, best);
        return;
      }
      var n := trie.root;
      var j := start;
      JoinedGrows(t, i, start, start);
      RootIsAtRoot(trie);
      while j < |t.tokens|
        invariant start <= j <= |t.tokens| && Joined(t, i, start, j)
        invariant n.path == PathOf(t.tokens, start, j) && n.path in trie.nodes && trie.nodes[n.path] == n
        invariant Improves(trie.dictionary, t, i, start, j, end0, best0, end, best)
      {
        if j > start && !Gap(t.Between(j), j > i + 1) {
          BrokenOff(t, i, start, j);
          SpelledReaching(trie.dictionary, t, i, start, j);
          NothingMore(trie.dictionary, t, i, start, j, end0, best0, end, best);
          return;
        }
        if t.tokens[j].word !in n.children {
          NothingBelow(trie, t, start, j);
          SpelledReaching(trie.dictionary, t, i, start, j);
          NothingMore(trie.dictionary, t, i, start, j, end0, best0, end, best);
          return;
        }
        Descend(trie, n.path, t.tokens[j].word);
        n := n.children[t.tokens[j].word];
        JoinedGrows(t, i, start, j);
        SpelledReaching(trie.dictionary, t, i, start, j);
        OneMore(trie.dictionary, t, i, start, j, end0, best0, end, best);
        if n.entries != [] {
          if j > end {
            end, best := j, n.entries;
          } else if j == end {
            best := best + n.entries;
          }
        }
        j := j + 1;
      }
    }

    /** The longest match for the number i over both tries. */
    method Longest(t: Transcript, i: nat) returns (end: int, best: seq<Entry>)
      requires Valid() && t.Valid() && i < |t.tokens|
      ensures end == LongestEnd(Known(), t, i, |t.tokens| - 1)
      ensures best == if end >= 0 then Matching(Known(), t, i, end) else []
    {
      hide Trie.Valid, Transcript.Valid, Improves, Matching, Reaching;
      end, best := Search(streets, t, i, i + 1, -1, []);
      ghost var end1, best1 := end, best;
      end, best := Search(access, t, i, i, end, best);
      BothTries(Known(), t, i, end1, best1, end, best);
    }

    method Extract(u: Unicode, transcript: string) returns (result: seq<Candidate>)
      requires Valid()
      ensures (exists k :: 0 <= k < |transcript| && u.isUnsafe(transcript[k])) ==> result == []
      ensures (forall k :: 0 <= k < |transcript| ==> !u.isUnsafe(transcript[k])) ==>
                forall tokens :: IsTokenization(u, transcript, tokens) ==>
                  Transcript(transcript, tokens).Valid()
                  && result == Extraction(Known(), Transcript(transcript, tokens), 0)
    {
      hide Trie.Valid, Emits, LongestEnd, Matching, Extraction, SupportedNumber, House, IsTokenization,
           Transcript.Valid;
      if exists k :: 0 <= k < |transcript| && u.isUnsafe(transcript[k]) {
        return [];
      }
      var tokens := Tokenize(u, transcript);
      var t := Transcript(transcript, tokens);
      TokensValid(u, transcript, tokens);
      result := [];
      var i := 0;
      while i < |tokens|
        invariant i <= |tokens|
        invariant Extraction(Known(), t, 0) == result + Extraction(Known(), t, i)
      {
        ExtractionStep(Known(), t, i);
        if !House(tokens[i].word) || !SupportedNumber(t, i) {
          i := i + 1;
          continue;
        }
        var end, best := Longest(t, i);
        if |best| != 1 {
          i := i + 1;
          continue;
        }
        CandidateSpan(Known(), t, i);
        var start, finish := tokens[i].start, tokens[end].end;
        var c := Candidate(tokens[i].word, best[0].name, best[0].kind, transcript[start..finish], start, finish);
        result := result + [c];
        i := end + 1;
      }
      ExtractionStep(Known(), t, i);
      assert result == Extraction(Known(), t, 0);
      forall other | IsTokenization(u, transcript, other)
        ensures other == tokens
      {
        TokenizationUnique(u, transcript, other, tokens);
      }
    }
  }

  lemma TokensValid(u: Unicode, text: string, tokens: seq<Token>)
    requires IsTokenization(u, text, tokens)
    ensures Transcript(text, tokens).Valid()
  {
    assert forall k :: 0 <= k < |tokens| ==> IsRun(u, text, tokens[k]);
  }

  lemma NothingSeen(listings: seq<Listing>, t: Transcript, i: nat, start: nat, end0: int, best0: seq<Entry>)
    requires t.Valid() && i <= start <= i + 1 && start <= |t.tokens|
    ensures Improves(listings, t, i, start, start, end0, best0, end0, best0)
  {
  }

  lemma OneMore(listings: seq<Listing>, t: Transcript, i: nat, start: nat, j: nat,
                end0: int, best0: seq<Entry>, end: int, best: seq<Entry>)
    requires t.Valid() && i <= start <= i + 1 && start <= j < |t.tokens|
    requires Improves(listings, t, i, start, j, end0, best0, end, best)
    ensures var e := Reaching(listings, t, i, start, j);
            Improves(listings, t, i, start, j + 1, end0, best0, if e != [] && j > end then j else end,
                     if e == [] then best else if j > end then e else if j == end then best + e else best)
  {
    hide Spelled, Joined;
    assert best0 + [] == best0;
  }

  lemma NothingMore(listings: seq<Listing>, t: Transcript, i: nat, start: nat, j: nat,
                    end0: int, best0: seq<Entry>, end: int, best: seq<Entry>)
    requires t.Valid() && i <= start <= i + 1 && start <= j <= |t.tokens|
    requires Improves(listings, t, i, start, j, end0, best0, end, best)
    requires forall k :: j <= k < |t.tokens| ==> Reaching(listings, t, i, start, k) == []
    ensures Improves(listings, t, i, start, |t.tokens|, end0, best0, end, best)
  {
    hide Spelled, Joined;
    assert best0 + [] == best0;
  }

  /** Nothing is reached behind a missing gap or where nothing is spelled; what is joined reaches all it spells. */
  lemma SpelledReaching(listings: seq<Listing>, t: Transcript, i: nat, start: nat, j: nat)
    requires t.Valid() && i <= start <= j < |t.tokens| && start <= i + 1
    ensures Joined(t, i, start, j + 1) ==>
          Reaching(listings, t, i, start, j) == Spelled(listings, Below(PathOf(t.tokens, start, j), t.tokens[j].word))
    ensures (forall k :: j < k <= |t.tokens| ==> !Joined(t, i, start, k))
            || (forall k :: j < k <= |t.tokens| ==> Spelled(listings, PathOf(t.tokens, start, k)) == []) ==>
              forall k :: j <= k < |t.tokens| ==> Reaching(listings, t, i, start, k) == []
  {
    hide Joined, Spelled, Transcript.Valid;
    forall k | j <= k < |t.tokens|
      ensures !Joined(t, i, start, k + 1) || Spelled(listings, PathOf(t.tokens, start, k + 1)) == [] ==>
                Reaching(listings, t, i, start, k) == []
    {
    }
  }

  /** Joining one more word needs one more gap, and nothing is joined behind a missing one. */
  lemma JoinedGrows(t: Transcript, i: nat, start: nat, j: nat)
    requires t.Valid() && i <= start <= j < |t.tokens| && start <= i + 1
    requires if j > start then Joined(t, i, start, j) && Gap(t.Between(j), j > i + 1)
             else start > i ==> Gap(t.Between(start), false)
    ensures Joined(t, i, start, j) && Joined(t, i, start, j + 1)
  {
    hide Gap;
  }

  lemma BrokenOff(t: Transcript, i: nat, start: nat, j: nat)
    requires t.Valid() && i <= start <= j < |t.tokens| && start <= i + 1
    requires if j > start then !Gap(t.Between(j), j > i + 1) else start > i && !Gap(t.Between(start), false)
    ensures forall k :: j < k <= |t.tokens| ==> !Joined(t, i, start, k)
  {
    hide Gap;
  }

  /** A word without a child ends every dictionary path that would pass through it. */
  lemma NothingBelow(trie: Trie, t: Transcript, start: nat, j: nat)
    requires trie.Valid() && t.Valid() && start <= j < |t.tokens|
    requires var p := PathOf(t.tokens, start, j); p in trie.nodes && t.tokens[j].word !in trie.nodes[p].children
    ensures forall k :: j < k <= |t.tokens| ==> Spelled(trie.dictionary, PathOf(t.tokens, start, k)) == []
  {
    forall k | j < k <= |t.tokens|
      ensures Spelled(trie.dictionary, PathOf(t.tokens, start, k)) == []
    {
      PathsLeave(trie, t, start, j, k);
      if Spelled(trie.dictionary, PathOf(t.tokens, start, k)) != [] {
        SpelledIsListed(trie.dictionary, PathOf(t.tokens, start, k));
      }
    }
  }

  lemma NoNodeBelow(trie: Trie, p: Path, w: Word)
    requires trie.Valid()
    ensures p !in trie.nodes || w !in trie.nodes[p].children ==> Below(p, w) !in trie.nodes
  {
    hide Spelled;
  }

  /** What one step down finds: the child at the longer path, and at every node the entries of its path. */
  lemma Descend(trie: Trie, p: Path, w: Word)
    requires trie.Valid() && p in trie.nodes
    ensures trie.nodes[p].path == p && trie.nodes[p].entries == Spelled(trie.dictionary, p)
    ensures w in trie.nodes[p].children ==>
              Below(p, w) in trie.nodes && trie.nodes[p].children[w] == trie.nodes[Below(p, w)]
              && trie.nodes[p].children[w].path == Below(p, w)
              && trie.nodes[p].children[w].entries == Spelled(trie.dictionary, Below(p, w))
  {
    hide Spelled;
  }

  lemma RootIsAtRoot(trie: Trie)
    requires trie.Valid()
    ensures trie.root.path == Root && Root in trie.nodes && trie.nodes[Root] == trie.root
  {
    hide Spelled;
  }

  lemma {:induction false} PathsLeave(trie: Trie, t: Transcript, start: nat, j: nat, k: nat)
    requires trie.Valid() && t.Valid() && start <= j < k <= |t.tokens|
    requires var p := PathOf(t.tokens, start, j); p in trie.nodes && t.tokens[j].word !in trie.nodes[p].children
    ensures PathOf(t.tokens, start, k) !in trie.nodes
  {
    hide Trie.Valid, Transcript.Valid;
    NoNodeBelow(trie, PathOf(t.tokens, start, k - 1), t.tokens[k - 1].word);
    if k > j + 1 {
      PathsLeave(trie, t, start, j, k - 1);
    }
  }

  /** Two descents, street names first, find the longest match of the naive specification and all its entries. */
  lemma BothTries(d: Dictionary, t: Transcript, i: nat, end1: int, best1: seq<Entry>, end: int, best: seq<Entry>)
    requires t.Valid() && i < |t.tokens|
    requires Improves(d.streets, t, i, i + 1, |t.tokens|, -1, [], end1, best1)
    requires Improves(d.access, t, i, i, |t.tokens|, end1, best1, end, best)
    ensures end == LongestEnd(d, t, i, |t.tokens| - 1)
    ensures best == if end >= 0 then Matching(d, t, i, end) else []
  {
    hide Reaching;
    LongestEndUnique(d, t, i, |t.tokens| - 1, end);
  }

  lemma {:induction false} LongestEndUnique(d: Dictionary, t: Transcript, i: nat, j: int, end: int)
    requires t.Valid() && i <= |t.tokens| && -1 <= end <= j < |t.tokens|
    requires end == -1 || (i <= end && Matching(d, t, i, end) != [])
    requires forall k :: i <= k <= j && k > end ==> Matching(d, t, i, k) == []
    ensures end == LongestEnd(d, t, i, j)
    decreases j + 1
  {
    hide Matching;
    if i <= j && end < j {
      LongestEndUnique(d, t, i, j - 1, end);
    }
  }

  /** Extraction unfolded once, in the terms of the scanning loop. */
  lemma ExtractionStep(d: Dictionary, t: Transcript, i: nat)
    requires t.Valid() && i <= |t.tokens|
    ensures i == |t.tokens| ==> Extraction(d, t, i) == []
    ensures i < |t.tokens| && Emits(d, t, i) ==>
              Extraction(d, t, i) == [CandidateAt(d, t, i)] + Extraction(d, t, LongestEnd(d, t, i, |t.tokens| - 1) + 1)
    ensures i < |t.tokens| && !Emits(d, t, i) ==> Extraction(d, t, i) == Extraction(d, t, i + 1)
    ensures i < |t.tokens| ==>
              (Emits(d, t, i) <==>
                 var end := LongestEnd(d, t, i, |t.tokens| - 1);
                 House(t.tokens[i].word) && SupportedNumber(t, i) && end >= 0 && |Matching(d, t, i, end)| == 1)
  {
    hide Matching, LongestEnd, House, SupportedNumber;
  }

  /** Candidates from token i on, quoted verbatim, in text order and apart from each other. */
  ghost predicate Separate(t: Transcript, i: nat, r: seq<Candidate>)
    requires t.Valid() && i <= |t.tokens|
  {
    && (forall k :: 0 <= k < |r| ==> r[k].start < r[k].end <= |t.text| && r[k].evidence == t.text[r[k].start..r[k].end])
    && (forall k :: 0 <= k < |r| ==> i < |t.tokens| && t.tokens[i].start <= r[k].start)
    && (forall k, l :: 0 <= k < l < |r| ==> r[k].end < r[l].start)
  }

  lemma CandidateSpan(d: Dictionary, t: Transcript, i: nat)
    requires t.Valid() && i < |t.tokens| && Emits(d, t, i)
    ensures var c := CandidateAt(d, t, i); var end := LongestEnd(d, t, i, |t.tokens| - 1);
            && c.start == t.tokens[i].start < c.end == t.tokens[end].end <= |t.text|
            && c.evidence == t.text[c.start..c.end] && i <= end
  {
    hide Emits, Matching, LongestEnd, House, SupportedNumber;
    var end := LongestEnd(d, t, i, |t.tokens| - 1);
    ExtractionStep(d, t, i);
    assert i < end ==> t.tokens[i].end < t.tokens[end].start;
  }

  lemma SeparateCons(t: Transcript, i: nat, end: nat, c: Candidate, rest: seq<Candidate>)
    requires t.Valid() && i <= end < |t.tokens| && Separate(t, end + 1, rest)
    requires c.start == t.tokens[i].start < c.end == t.tokens[end].end && c.evidence == t.text[c.start..c.end]
    ensures Separate(t, i, [c] + rest)
  {
    var r := [c] + rest;
    assert forall k :: 1 <= k < |r| ==> r[k] == rest[k - 1];
    assert forall k :: end < k < |t.tokens| ==> t.tokens[i].start < t.tokens[k].start && c.end < t.tokens[k].start;
  }

  lemma SeparateFromEarlier(t: Transcript, i: nat, rest: seq<Candidate>)
    requires t.Valid() && i < |t.tokens| && Separate(t, i + 1, rest)
    ensures Separate(t, i, rest)
  {
    assert i + 1 < |t.tokens| ==> t.tokens[i].start < t.tokens[i + 1].start;
  }

  /** Spans are strictly increasing and disjoint, and every evidence is the text of its span. */
  lemma {:induction false} ExtractionSpans(d: Dictionary, t: Transcript, i: nat)
    requires t.Valid() && i <= |t.tokens|
    ensures Separate(t, i, Extraction(d, t, i))
    decreases |t.tokens| - i
  {
    hide Emits, LongestEnd, CandidateAt, Extraction;
    ExtractionStep(d, t, i);
    if i < |t.tokens| && Emits(d, t, i) {
      var end := LongestEnd(d, t, i, |t.tokens| - 1);
      CandidateSpan(d, t, i);
      ExtractionSpans(d, t, end + 1);
      SeparateCons(t, i, end, CandidateAt(d, t, i), Extraction(d, t, end + 1));
    } else if i < |t.tokens| {
      ExtractionSpans(d, t, i + 1);
      SeparateFromEarlier(t, i, Extraction(d, t, i + 1));
    }
  }

  ghost predicate Holds(d: Dictionary, t: Transcript, r: seq<Candidate>, m: nat)
    requires t.Valid() && m < |t.tokens| && Emits(d, t, m)
  {
    exists k :: 0 <= k < |r| && (r[k] == CandidateAt(d, t, m) || r[k].start < t.tokens[m].start < r[k].end)
  }

  ghost predicate Backed(d: Dictionary, t: Transcript, i: nat, c: Candidate)
    requires t.Valid()
  {
    exists m :: i <= m < |t.tokens| && Emits(d, t, m) && c == CandidateAt(d, t, m)
  }

  /**
   Nothing is invented and nothing is lost: every candidate is the unique longest match of a supported
   number, and every such number is emitted unless it lies inside the span of an earlier candidate.
   */
  lemma {:induction false} ExtractionExact(d: Dictionary, t: Transcript, i: nat)
    requires t.Valid() && i <= |t.tokens|
    ensures forall k :: 0 <= k < |Extraction(d, t, i)| ==> Backed(d, t, i, Extraction(d, t, i)[k])
    ensures forall m :: i <= m < |t.tokens| && Emits(d, t, m) ==> Holds(d, t, Extraction(d, t, i), m)
    decreases |t.tokens| - i
  {
    hide Emits, LongestEnd, CandidateAt, Extraction, Transcript.Valid, Matching, House, SupportedNumber, Holds, Backed;
    ExtractionStep(d, t, i);
    if i < |t.tokens| && Emits(d, t, i) {
      var end := LongestEnd(d, t, i, |t.tokens| - 1);
      var rest := Extraction(d, t, end + 1);
      ExtractionExact(d, t, end + 1);
      BackedFromEarlier(d, t, i, end + 1, rest);
      FirstIsBacked(d, t, i);
      forall m | i <= m < |t.tokens| && Emits(d, t, m)
        ensures Holds(d, t, [CandidateAt(d, t, i)] + rest, m)
      {
        HeldWithFirst(d, t, i, end, rest, m);
      }
    } else if i < |t.tokens| {
      ExtractionExact(d, t, i + 1);
      BackedFromEarlier(d, t, i, i + 1, Extraction(d, t, i));
    }
  }

  lemma FirstIsBacked(d: Dictionary, t: Transcript, i: nat)
    requires t.Valid() && i < |t.tokens| && Emits(d, t, i)
    ensures Backed(d, t, i, CandidateAt(d, t, i))
  {
    hide Emits, CandidateAt, Transcript.Valid;
  }

  lemma HeldWithFirst(d: Dictionary, t: Transcript, i: nat, end: nat, rest: seq<Candidate>, m: nat)
    requires t.Valid() && i <= m < |t.tokens| && Emits(d, t, i) && Emits(d, t, m)
             && end == LongestEnd(d, t, i, |t.tokens| - 1)
    requires m > end ==> Holds(d, t, rest, m)
    ensures Holds(d, t, [CandidateAt(d, t, i)] + rest, m)
  {
    hide Emits, CandidateAt, LongestEnd, Transcript.Valid;
    var r := [CandidateAt(d, t, i)] + rest;
    CandidateSpan(d, t, i);
    if m <= end {
      InsideSpan(t, i, m, end);
      assert r[0] == CandidateAt(d, t, i);
    } else {
      HeldBehind(d, t, CandidateAt(d, t, i), rest, m);
    }
  }

  lemma InsideSpan(t: Transcript, i: nat, m: nat, end: nat)
    requires t.Valid() && i <= m <= end < |t.tokens|
    ensures i < m ==> t.tokens[i].start < t.tokens[m].start < t.tokens[end].end
  {
    assert i < m ==> t.tokens[i].end < t.tokens[m].start;
    assert m < end ==> t.tokens[m].end < t.tokens[end].start;
  }

  lemma HeldBehind(d: Dictionary, t: Transcript, c: Candidate, rest: seq<Candidate>, m: nat)
    requires t.Valid() && m < |t.tokens| && Emits(d, t, m) && Holds(d, t, rest, m)
    ensures Holds(d, t, [c] + rest, m)
  {
    hide Emits, CandidateAt, Transcript.Valid;
    var k :| 0 <= k < |rest| && (rest[k] == CandidateAt(d, t, m) || rest[k].start < t.tokens[m].start < rest[k].end);
    assert ([c] + rest)[k + 1] == rest[k];
  }

  lemma BackedFromEarlier(d: Dictionary, t: Transcript, i: nat, j: nat, r: seq<Candidate>)
    requires t.Valid() && i <= j
    requires forall k :: 0 <= k < |r| ==> Backed(d, t, j, r[k])
    ensures forall k :: 0 <= k < |r| ==> Backed(d, t, i, r[k])
  {
    hide Emits, CandidateAt, Transcript.Valid;
    forall k | 0 <= k < |r|
      ensures Backed(d, t, i, r[k])
    {
      assert Backed(d, t, j, r[k]);
      var m :| j <= m < |t.tokens| && Emits(d, t, m) && r[k] == CandidateAt(d, t, m);
    }
  }

  // What a candidate says

  lemma {:induction false} SpelledExactly(listings: seq<Listing>, path: Path, e: Entry)
    ensures e in Spelled(listings, path) <==> exists k :: 0 <= k < |listings| && listings[k] == Listing(path, e)
  {
    if listings != [] {
      var n := |listings| - 1;
      SpelledExactly(listings[..n], path, e);
      if k :| 0 <= k < |listings| && listings[k] == Listing(path, e) {
        assert k < n ==> listings[..n][k] == Listing(path, e);
      }
      if k :| 0 <= k < n && listings[..n][k] == Listing(path, e) {
        assert listings[k] == Listing(path, e);
      }
    }
  }

  /** The dictionary lists the entry under the words from the number, or from behind it, up to token `end`. */
  ghost predicate NamedBy(d: Dictionary, t: Transcript, m: nat, end: nat, e: Entry)
    requires m <= end < |t.tokens|
  {
    || (m < end && exists k :: 0 <= k < |d.streets| && d.streets[k] == Listing(PathOf(t.tokens, m + 1, end + 1), e))
    || exists k :: 0 <= k < |d.access| && d.access[k] == Listing(PathOf(t.tokens, m, end + 1), e)
  }

  /** The words from the number up to token `end` follow each other without anything but what may join words. */
  predicate Unbroken(t: Transcript, m: nat, end: nat)
    requires t.Valid() && m <= end < |t.tokens|
  {
    forall q :: m < q <= end ==> Gap(t.Between(q), q > m + 1)
  }

  lemma MatchingExactly(d: Dictionary, t: Transcript, m: nat, end: nat, e: Entry)
    requires t.Valid() && m <= end < |t.tokens|
    ensures e in Matching(d, t, m, end) <==> Unbroken(t, m, end) && NamedBy(d, t, m, end, e)
  {
    hide Gap, Spelled;
    SpelledExactly(d.access, PathOf(t.tokens, m, end + 1), e);
    assert Joined(t, m, m, end + 1) <==> Unbroken(t, m, end);
    if m < end {
      SpelledExactly(d.streets, PathOf(t.tokens, m + 1, end + 1), e);
      assert Joined(t, m, m + 1, end + 1) <==> Unbroken(t, m, end);
    }
  }

  /** The candidate's span runs from a house number to the end of the one name the dictionary has for it. */
  ghost predicate Reads(d: Dictionary, t: Transcript, c: Candidate, m: nat, end: nat)
    requires t.Valid() && m <= end < |t.tokens|
  {
    && c.start == t.tokens[m].start && c.end == t.tokens[end].end
    && c.houseNumber == t.tokens[m].word && House(c.houseNumber) && SupportedNumber(t, m) && Unbroken(t, m, end)
    && forall e :: NamedBy(d, t, m, end, e) <==> e == Entry(c.canonicalStreet, c.dictionaryKind)
  }

  lemma EmittedReads(d: Dictionary, t: Transcript, m: nat)
    requires t.Valid() && m < |t.tokens| && Emits(d, t, m)
    ensures exists end :: m <= end < |t.tokens| && Reads(d, t, CandidateAt(d, t, m), m, end)
  {
    hide Matching, LongestEnd, SupportedNumber, Unbroken, NamedBy, House;
    var c, end := CandidateAt(d, t, m), LongestEnd(d, t, m, |t.tokens| - 1);
    var found := Matching(d, t, m, end);
    MatchingExactly(d, t, m, end, found[0]);
    forall e ensures NamedBy(d, t, m, end, e) <==> e == Entry(c.canonicalStreet, c.dictionaryKind) {
      MatchingExactly(d, t, m, end, e);
      assert e in found <==> e == found[0];
    }
    assert Reads(d, t, c, m, end);
  }

  /**
   Every candidate gives the number its span starts with and the name and kind of the one dictionary entry that is
   spelled from there, or from behind the number, to the end of the span.
   */
  lemma CandidatesRead(d: Dictionary, t: Transcript, i: nat, k: nat)
    requires t.Valid() && i <= |t.tokens| && k < |Extraction(d, t, i)|
    ensures exists m, end :: i <= m <= end < |t.tokens| && Reads(d, t, Extraction(d, t, i)[k], m, end)
  {
    hide Extraction, Emits, CandidateAt, Reads, Transcript.Valid;
    ExtractionExact(d, t, i);
    var c := Extraction(d, t, i)[k];
    assert Backed(d, t, i, c);
    var m :| i <= m < |t.tokens| && Emits(d, t, m) && c == CandidateAt(d, t, m);
    EmittedReads(d, t, m);
  }

  /**
   Between words of a name commas, quotes, brackets and blanks may stand, a hyphen only behind the first; nothing else
   may.
   */
  lemma JoinsExactly(c: char, withinStreet: bool)
    ensures Gap([c], withinStreet) <==>
            || c == ' ' || c == '\t' || c == ',' || c == '"' || c == '\'' || c == '(' || c == ')'
            || c == '\U{201C}' || c == '\U{201D}' || c == '\U{2018}' || c == '\U{2019}' || (withinStreet && c == '-')
  {
    assert [c][0] == c;
  }

  /** Several of them may stand together, but there must be one. */
  lemma GapsJoin(x: string, y: string, withinStreet: bool)
    requires x != "" && y != ""
    ensures !Gap("", withinStreet) && (Gap(x + y, withinStreet) <==> Gap(x, withinStreet) && Gap(y, withinStreet))
  {
    forall k | 0 <= k < |y| ensures (x + y)[|x| + k] == y[k] {
    }
    forall k | 0 <= k < |x| ensures (x + y)[k] == x[k] {
    }
  }

  /** A plus or minus sign, a slash or a dash. */
  predicate SignAt(t: Transcript, k: nat)
    requires k < |t.text|
  {
    var c := t.text[k];
    c == '+' || c == '-' || c == '/' || c == '\U{2212}' || c == '\U{2013}' || c == '\U{2014}'
  }

  /**
   A number is supported exactly when no sign stands right before it and no other number before it without a line break
   or the stop of a sentence between.
   */
  lemma BarriersExactly(t: Transcript, i: nat)
    requires t.Valid() && i < |t.tokens|
    ensures SupportedNumber(t, i) <==>
            && (t.tokens[i].start == 0 || !SignAt(t, t.tokens[i].start - 1))
            && (|| i == 0 || !House(t.tokens[i - 1].word)
                || '\n' in t.Between(i) || '\r' in t.Between(i) || '!' in t.Between(i) || '?' in t.Between(i)
                || ';' in t.Between(i))
  {
    hide House;
  }

  /** A house number is one decimal digit, or one with another digit behind it. */
  lemma HousesExactly(text: string, c: char)
    ensures !House(Word("")) && (House(Word(text + [c])) <==> (text == "" || House(Word(text))) && c in "0123456789")
  {
    var digits := "0123456789";
    assert digits[0] == '0' && digits[1] == '1' && digits[2] == '2' && digits[3] == '3' && digits[4] == '4'
           && digits[5] == '5' && digits[6] == '6' && digits[7] == '7' && digits[8] == '8' && digits[9] == '9';
    assert (text + [c])[|text|] == c;
    assert forall i :: 0 <= i < |text| ==> (text + [c])[i] == text[i];
  }
}
