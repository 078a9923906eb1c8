/**
  The inline-markdown renderer. A text is cut into plain pieces and rendered
  elements by six passes in a fixed order; each pass hands every plain piece
  left by the previous passes to a global regular expression and splits the
  piece around the matches. The regular expressions themselves are an oracle
  here: `find(pass, text)` is the sequence of results `regex.exec` returns on
  `text`, which for a global expression without empty matches is ordered,
  non-overlapping and made of non-empty spans of `text`.
 */
module Markdown {
  import opened Strings

  /** The six passes: links, inline code, bold, italic, strikethrough, bare URLs. */
  datatype Pass = Links | Code | Bold | Italic | Strike | AutoLinks

  /** The order in which `renderMarkdown` applies the passes. */
  const PassOrder: seq<Pass> := [Links, Code, Bold, Italic, Strike, AutoLinks]

  /**
    One result of `regex.exec`: `index` is where the match starts, `span` is
    `match[0]`, `content` is what the element shows (a capture group, or the
    whole match for a bare URL).
   */
  datatype Match = Match(index: nat, span: string, content: string)

  /** The end of a match: where the next `exec` resumes (`lastIndex`). */
  function End(m: Match): nat {
    m.index + |m.span|
  }

  /** One match: a non-empty span of `text` found at its index. */
  predicate MatchOk(text: string, m: Match) {
    |m.span| > 0 && End(m) <= |text| && text[m.index..End(m)] == m.span
  }

  /** What a global regular expression without empty matches yields on `text`. */
  predicate MatchesOk(text: string, ms: seq<Match>) {
    && (forall i :: 0 <= i < |ms| ==> MatchOk(text, ms[i]))
    && (forall i :: 0 <= i < |ms| - 1 ==> End(ms[i]) <= ms[i + 1].index)
  }

  /** The match finder of every pass behaves like a global regular expression. */
  ghost predicate FinderOk(find: (Pass, string) -> seq<Match>) {
    forall p, t :: MatchesOk(t, find(p, t))
  }

  /**
    A node of the rendered output: a plain string, or an element made by
    `pass` from the match with number `index` of the string that had key
    offset `keyOffset` (its React key is `<pass>-<keyOffset>-<index>`).
   */
  datatype Node =
    | Str(s: string)
    | Elem(pass: Pass, keyOffset: nat, index: nat, span: string, content: string)

  /** The element the render callback builds for match number `i`. */
  function Render(pass: Pass, keyOffset: nat, i: nat, m: Match): Node {
    Elem(pass, keyOffset, i, m.span, m.content)
  }

  /** The source text a node stands for: the string itself, or the span an element was made from. */
  function Piece(n: Node): string {
    match n
    case Str(s) => s
    case Elem(_, _, _, span, _) => span
  }

  function Flatten(nodes: seq<Node>): string {
    if nodes == [] then "" else Piece(nodes[0]) + Flatten(nodes[1..])
  }

  /** The elements of one pass, in order. */
  function ElemsOf(nodes: seq<Node>, p: Pass): (es: seq<Node>)
    ensures forall i :: 0 <= i < |es| ==> es[i].Elem? && es[i].pass == p
    ensures |es| <= |nodes|
  {
    if nodes == [] then []
    else (if nodes[0].Elem? && nodes[0].pass == p then [nodes[0]] else []) + ElemsOf(nodes[1..], p)
  }

  /** The elements of every other pass, in order. */
  function OtherElems(nodes: seq<Node>, p: Pass): seq<Node> {
    if nodes == [] then []
    else (if nodes[0].Elem? && nodes[0].pass != p then [nodes[0]] else []) + OtherElems(nodes[1..], p)
  }


  /** What one match contributes: the text since `last` when there is some, then the rendered match. */
  function Step(text: string, m: Match, pass: Pass, keyOffset: nat, i: nat, last: nat): seq<Node> {
    (if m.index > last then [Str(SliceRange(text, last, m.index))] else []) + [Render(pass, keyOffset, i, m)]
  }

  /**
    The loop of `splitByRegex` from match `i` on, with `last` the current
    `lastIndex` and `acc` the nodes pushed so far; after the last match the
    rest of the text is pushed when there is some.
   */
  function SplitFrom(text: string, ms: seq<Match>, pass: Pass, keyOffset: nat, i: nat, last: nat, acc: seq<Node>): seq<Node>
    requires i <= |ms|
    decreases |ms| - i
  {
    if i == |ms| then acc + (if last < |text| then [Str(Slice(text, last))] else [])
    else SplitFrom(text, ms, pass, keyOffset, i + 1, End(ms[i]), acc + Step(text, ms[i], pass, keyOffset, i, last))
  }

  /** `splitByRegex`: the pushed nodes, or `[text]` when nothing was pushed. */
  function SplitByRegexSpec(text: string, ms: seq<Match>, pass: Pass, keyOffset: nat): (r: seq<Node>)
    ensures |r| >= 1
  {
    var pushed := SplitFrom(text, ms, pass, keyOffset, 0, 0, []);
    if |pushed| > 0 then pushed else [Str(text)]
  }

  /** `splitByRegex`, with the successive results of `regex.exec` given as `ms`. */
  method SplitByRegex(text: string, ms: seq<Match>, pass: Pass, keyOffset: nat) returns (result: seq<Node>)
    ensures result == SplitByRegexSpec(text, ms, pass, keyOffset)
  {
    result := [];
    var lastIndex: nat := 0;
    var matchIndex: nat := 0;
    while matchIndex < |ms|
      invariant matchIndex <= |ms|
      invariant SplitFrom(text, ms, pass, keyOffset, matchIndex, lastIndex, result)
             == SplitFrom(text, ms, pass, keyOffset, 0, 0, [])
    {
      var m := ms[matchIndex];
      ghost var before := result;
      if m.index > lastIndex {
        result := result + [Str(SliceRange(text, lastIndex, m.index))];
      }
      result := result + [Render(pass, keyOffset, matchIndex, m)];
      assert result == before + Step(text, m, pass, keyOffset, matchIndex, lastIndex);
      lastIndex := End(m);
      matchIndex := matchIndex + 1;
    }
    if lastIndex < |text| {
      result := result + [Str(Slice(text, lastIndex))];
    }
    if |result| == 0 {
      result := [Str(text)];
    }
  }

  /** The nodes pushed from match `i` on, starting from nothing. */
  function Pushed(text: string, ms: seq<Match>, pass: Pass, keyOffset: nat, i: nat, last: nat): seq<Node>
    requires i <= |ms|
  {
    SplitFrom(text, ms, pass, keyOffset, i, last, [])
  }

  /** What was pushed before is kept in front. */
  lemma {:induction false} SplitFromAcc(text: string, ms: seq<Match>, pass: Pass, keyOffset: nat, i: nat, last: nat, acc: seq<Node>)
    requires i <= |ms|
    ensures SplitFrom(text, ms, pass, keyOffset, i, last, acc) == acc + Pushed(text, ms, pass, keyOffset, i, last)
    decreases |ms| - i
  {
    if i == |ms| {
      assert [] + (if last < |text| then [Str(Slice(text, last))] else []) == Pushed(text, ms, pass, keyOffset, i, last);
    } else {
      var step := Step(text, ms[i], pass, keyOffset, i, last);
      SplitFromAcc(text, ms, pass, keyOffset, i + 1, End(ms[i]), acc + step);
      SplitFromAcc(text, ms, pass, keyOffset, i + 1, End(ms[i]), [] + step);
      assert [] + step == step;
    }
  }

  /** The pushed nodes from match `i` on: what match `i` contributes, then the rest. */
  lemma PushedStep(text: string, ms: seq<Match>, pass: Pass, keyOffset: nat, i: nat, last: nat)
    requires i < |ms|
    ensures Pushed(text, ms, pass, keyOffset, i, last)
         == Step(text, ms[i], pass, keyOffset, i, last) + Pushed(text, ms, pass, keyOffset, i + 1, End(ms[i]))
  {
    var step := Step(text, ms[i], pass, keyOffset, i, last);
    SplitFromAcc(text, ms, pass, keyOffset, i + 1, End(ms[i]), [] + step);
    assert [] + step == step;
  }

  /** After the last match, only the rest of the text is pushed, when there is some. */
  lemma PushedLast(text: string, ms: seq<Match>, pass: Pass, keyOffset: nat, last: nat)
    ensures Pushed(text, ms, pass, keyOffset, |ms|, last) == if last < |text| then [Str(Slice(text, last))] else []
  {
    assert [] + (if last < |text| then [Str(Slice(text, last))] else []) == if last < |text| then [Str(Slice(text, last))] else [];
  }

  /** Where `lastIndex` may stand before match `i` of a well-formed match sequence. */
  predicate Aligned(text: string, ms: seq<Match>, i: nat, last: nat) {
    i <= |ms| && last <= |text| && (i < |ms| ==> last <= ms[i].index)
  }

  /** The facts `MatchesOk` gives about match `i`, and where `lastIndex` stands after it. */
  lemma MatchAt(text: string, ms: seq<Match>, i: nat, last: nat)
    requires MatchesOk(text, ms) && Aligned(text, ms, i, last) && i < |ms|
    ensures MatchOk(text, ms[i])
    ensures Aligned(text, ms, i + 1, End(ms[i]))
  {
  }

  lemma {:induction false} FlattenConcat(a: seq<Node>, b: seq<Node>)
    ensures Flatten(a + b) == Flatten(a) + Flatten(b)
  {
    if a == [] {
      assert a + b == b;
    } else {
      assert (a + b)[1..] == a[1..] + b;
      FlattenConcat(a[1..], b);
    }
  }

  /** What one match contributes spells out the text from `last` to the end of the match. */
  lemma StepFlatten(text: string, m: Match, pass: Pass, keyOffset: nat, i: nat, last: nat)
    requires last <= m.index && MatchOk(text, m)
    ensures Flatten(Step(text, m, pass, keyOffset, i, last)) == text[last..End(m)]
  {
    var gap: seq<Node> := if m.index > last then [Str(SliceRange(text, last, m.index))] else [];
    FlattenConcat(gap, [Render(pass, keyOffset, i, m)]);
    assert Flatten(gap) == text[last..m.index];
    assert text[last..End(m)] == text[last..m.index] + text[m.index..End(m)];
  }

  /** The pieces pushed from match `i` on spell out the text from `last` on. */
  lemma {:induction false} PushedFlatten(text: string, ms: seq<Match>, pass: Pass, keyOffset: nat, i: nat, last: nat)
    requires MatchesOk(text, ms) && Aligned(text, ms, i, last)
    ensures Flatten(Pushed(text, ms, pass, keyOffset, i, last)) == text[last..]
    decreases |ms| - i
  {
    if i < |ms| {
      var m := ms[i];
      var step := Step(text, m, pass, keyOffset, i, last);
      var rest := Pushed(text, ms, pass, keyOffset, i + 1, End(m));
      MatchAt(text, ms, i, last);
      PushedStep(text, ms, pass, keyOffset, i, last);
      PushedFlatten(text, ms, pass, keyOffset, i + 1, End(m));
      StepFlatten(text, m, pass, keyOffset, i, last);
      FlattenConcat(step, rest);
      SuffixSplit(text, last, End(m));
    } else {
      PushedTailFlatten(text, ms, pass, keyOffset, last);
    }
  }

  lemma SuffixSplit(text: string, a: nat, b: nat)
    requires a <= b <= |text|
    ensures text[a..] == text[a..b] + text[b..]
  {
  }

  /** After the last match, what is pushed spells out the rest of the text. */
  lemma PushedTailFlatten(text: string, ms: seq<Match>, pass: Pass, keyOffset: nat, last: nat)
    requires last <= |text|
    ensures Flatten(Pushed(text, ms, pass, keyOffset, |ms|, last)) == text[last..]
  {
    PushedLast(text, ms, pass, keyOffset, last);
    if last < |text| {
      assert Flatten([Str(Slice(text, last))]) == Slice(text, last) + Flatten([]);
    }
  }

  /** Splitting loses and adds nothing: the pieces and the matched spans, in order, rebuild the text. */
  lemma SplitFlatten(text: string, ms: seq<Match>, pass: Pass, keyOffset: nat)
    requires MatchesOk(text, ms)
    ensures Flatten(SplitByRegexSpec(text, ms, pass, keyOffset)) == text
  {
    PushedFlatten(text, ms, pass, keyOffset, 0, 0);
    assert text[0..] == text;
  }

  /** No plain piece among `nodes` is empty. */
  predicate PiecesNonEmpty(nodes: seq<Node>) {
    forall j :: 0 <= j < |nodes| ==> nodes[j].Str? ==> nodes[j].s != []
  }

  /** Every plain piece pushed is non-empty. */
  lemma {:induction false} PushedPiecesNonEmpty(text: string, ms: seq<Match>, pass: Pass, keyOffset: nat, i: nat, last: nat)
    requires MatchesOk(text, ms) && Aligned(text, ms, i, last)
    ensures PiecesNonEmpty(Pushed(text, ms, pass, keyOffset, i, last))
    decreases |ms| - i
  {
    if i < |ms| {
      MatchAt(text, ms, i, last);
      PushedStep(text, ms, pass, keyOffset, i, last);
      PushedPiecesNonEmpty(text, ms, pass, keyOffset, i + 1, End(ms[i]));
    } else {
      PushedLast(text, ms, pass, keyOffset, last);
    }
  }

  /** No plain piece of the result is empty, except the lone `""` returned for an empty text. */
  lemma SplitPiecesNonEmpty(text: string, ms: seq<Match>, pass: Pass, keyOffset: nat)
    requires MatchesOk(text, ms)
    ensures var r := SplitByRegexSpec(text, ms, pass, keyOffset);
      PiecesNonEmpty(r) || (text == [] && r == [Str("")])
  {
    PushedPiecesNonEmpty(text, ms, pass, keyOffset, 0, 0);
  }

  /** The rendered matches `i`, `i + 1`, … in order. */
  predicate RenderedFrom(es: seq<Node>, ms: seq<Match>, pass: Pass, keyOffset: nat, i: nat) {
    i <= |ms| && |es| == |ms| - i && forall j :: 0 <= j < |es| ==> es[j] == Render(pass, keyOffset, i + j, ms[i + j])
  }

  lemma {:induction false} ElemsOfConcat(a: seq<Node>, b: seq<Node>, p: Pass)
    ensures ElemsOf(a + b, p) == ElemsOf(a, p) + ElemsOf(b, p)
  {
    if a == [] {
      assert a + b == b;
    } else {
      assert (a + b)[1..] == a[1..] + b;
      ElemsOfConcat(a[1..], b, p);
    }
  }

  lemma {:induction false} OtherElemsConcat(a: seq<Node>, b: seq<Node>, p: Pass)
    ensures OtherElems(a + b, p) == OtherElems(a, p) + OtherElems(b, p)
  {
    if a == [] {
      assert a + b == b;
    } else {
      assert (a + b)[1..] == a[1..] + b;
      OtherElemsConcat(a[1..], b, p);
    }
  }

  /** What one match contributes holds one element, the rendered match, and nothing of another pass. */
  lemma StepElems(text: string, m: Match, pass: Pass, keyOffset: nat, i: nat, last: nat)
    ensures ElemsOf(Step(text, m, pass, keyOffset, i, last), pass) == [Render(pass, keyOffset, i, m)]
    ensures OtherElems(Step(text, m, pass, keyOffset, i, last), pass) == []
  {
    var gap: seq<Node> := if m.index > last then [Str(SliceRange(text, last, m.index))] else [];
    ElemsOfConcat(gap, [Render(pass, keyOffset, i, m)], pass);
    OtherElemsConcat(gap, [Render(pass, keyOffset, i, m)], pass);
  }

  /** Prepending the rendered match `i` to the rendered matches from `i + 1` on. */
  lemma RenderedFromCons(es: seq<Node>, ms: seq<Match>, pass: Pass, keyOffset: nat, i: nat)
    requires i < |ms| && RenderedFrom(es, ms, pass, keyOffset, i + 1)
    ensures RenderedFrom([Render(pass, keyOffset, i, ms[i])] + es, ms, pass, keyOffset, i)
  {
    var c := [Render(pass, keyOffset, i, ms[i])] + es;
    forall j | 0 <= j < |c|
      ensures c[j] == Render(pass, keyOffset, i + j, ms[i + j])
    {
      if j > 0 {
        assert c[j] == es[j - 1];
      }
    }
  }

  /** The elements pushed from match `i` on are the rendered matches `i`, `i + 1`, … */
  lemma {:induction false} PushedElems(text: string, ms: seq<Match>, pass: Pass, keyOffset: nat, i: nat, last: nat)
    requires i <= |ms|
    ensures RenderedFrom(ElemsOf(Pushed(text, ms, pass, keyOffset, i, last), pass), ms, pass, keyOffset, i)
    decreases |ms| - i
  {
    if i < |ms| {
      var m := ms[i];
      var step := Step(text, m, pass, keyOffset, i, last);
      var rest := Pushed(text, ms, pass, keyOffset, i + 1, End(m));
      PushedStep(text, ms, pass, keyOffset, i, last);
      PushedElems(text, ms, pass, keyOffset, i + 1, End(m));
      StepElems(text, m, pass, keyOffset, i, last);
      ElemsOfConcat(step, rest, pass);
      RenderedFromCons(ElemsOf(rest, pass), ms, pass, keyOffset, i);
    } else {
      PushedLast(text, ms, pass, keyOffset, last);
    }
  }

  /** Nothing pushed from match `i` on is an element of another pass. */
  lemma {:induction false} PushedOtherElems(text: string, ms: seq<Match>, pass: Pass, keyOffset: nat, i: nat, last: nat)
    requires i <= |ms|
    ensures OtherElems(Pushed(text, ms, pass, keyOffset, i, last), pass) == []
    decreases |ms| - i
  {
    if i < |ms| {
      var m := ms[i];
      var step := Step(text, m, pass, keyOffset, i, last);
      var rest := Pushed(text, ms, pass, keyOffset, i + 1, End(m));
      PushedStep(text, ms, pass, keyOffset, i, last);
      PushedOtherElems(text, ms, pass, keyOffset, i + 1, End(m));
      StepElems(text, m, pass, keyOffset, i, last);
      OtherElemsConcat(step, rest, pass);
    } else {
      PushedLast(text, ms, pass, keyOffset, last);
    }
  }

  /** There is one element per match, numbered 0, 1, … in match order, and no element of another pass. */
  lemma SplitElems(text: string, ms: seq<Match>, pass: Pass, keyOffset: nat)
    ensures RenderedFrom(ElemsOf(SplitByRegexSpec(text, ms, pass, keyOffset), pass), ms, pass, keyOffset, 0)
    ensures OtherElems(SplitByRegexSpec(text, ms, pass, keyOffset), pass) == []
  {
    PushedElems(text, ms, pass, keyOffset, 0, 0);
    PushedOtherElems(text, ms, pass, keyOffset, 0, 0);
  }

  /** Without matches, `splitByRegex` returns exactly `[text]`. */
  lemma SplitNoMatches(text: string, pass: Pass, keyOffset: nat)
    ensures SplitByRegexSpec(text, [], pass, keyOffset) == [Str(text)]
  {
    PushedLast(text, [], pass, keyOffset, 0);
    assert text[0..] == text;
  }

  /** What a pass makes of one node: a string is split, anything else is kept. */
  function Parse(n: Node, pass: Pass, find: (Pass, string) -> seq<Match>, keyOffset: nat): seq<Node> {
    match n
    case Str(s) => SplitByRegexSpec(s, find(pass, s), pass, keyOffset)
    case Elem(_, _, _, _, _) => [n]
  }

  /** The key offset after a node: advanced by the number of nodes a string produced. */
  function NextOffset(n: Node, pass: Pass, find: (Pass, string) -> seq<Match>, keyOffset: nat): nat {
    if n.Str? then keyOffset + |Parse(n, pass, find, keyOffset)| else keyOffset
  }

  /** The loop of `processNodes` from node `k` on, with the current key offset and the nodes produced so far. */
  function ProcessFrom(nodes: seq<Node>, pass: Pass, find: (Pass, string) -> seq<Match>, k: nat, keyOffset: nat, acc: seq<Node>): seq<Node>
    requires k <= |nodes|
    decreases |nodes| - k
  {
    if k == |nodes| then acc
    else ProcessFrom(nodes, pass, find, k + 1, NextOffset(nodes[k], pass, find, keyOffset),
                     acc + Parse(nodes[k], pass, find, keyOffset))
  }

  /** `processNodes`: every string node replaced by what the pass makes of it, every other node passed through. */
  function Process(nodes: seq<Node>, pass: Pass, find: (Pass, string) -> seq<Match>): seq<Node> {
    ProcessFrom(nodes, pass, find, 0, 0, [])
  }

  /** `processNodes`, with the parser of the pass given by the finder. */
  method ProcessNodes(nodes: seq<Node>, pass: Pass, find: (Pass, string) -> seq<Match>) returns (result: seq<Node>)
    ensures result == Process(nodes, pass, find)
  {
    var keyOffset: nat := 0;
    result := [];
    for k := 0 to |nodes|
      invariant ProcessFrom(nodes, pass, find, k, keyOffset, result) == Process(nodes, pass, find)
    {
      match nodes[k]
      case Str(s) =>
        var parsed := SplitByRegex(s, find(pass, s), pass, keyOffset);
        result := result + parsed;
        keyOffset := keyOffset + |parsed|;
      case Elem(_, _, _, _, _) =>
        result := result + [nodes[k]];
    }
  }

  /** The nodes a pass produces from node `k` on, starting from nothing. */
  function Produced(nodes: seq<Node>, pass: Pass, find: (Pass, string) -> seq<Match>, k: nat, keyOffset: nat): seq<Node>
    requires k <= |nodes|
  {
    ProcessFrom(nodes, pass, find, k, keyOffset, [])
  }

  /** What was produced before is kept in front. */
  lemma {:induction false} ProcessFromAcc(nodes: seq<Node>, pass: Pass, find: (Pass, string) -> seq<Match>, k: nat, keyOffset: nat, acc: seq<Node>)
    requires k <= |nodes|
    ensures ProcessFrom(nodes, pass, find, k, keyOffset, acc) == acc + Produced(nodes, pass, find, k, keyOffset)
    decreases |nodes| - k
  {
    if k == |nodes| {
      assert acc + [] == acc;
    } else {
      var out := Parse(nodes[k], pass, find, keyOffset);
      var next := NextOffset(nodes[k], pass, find, keyOffset);
      ProcessFromAcc(nodes, pass, find, k + 1, next, acc + out);
      ProcessFromAcc(nodes, pass, find, k + 1, next, [] + out);
      assert [] + out == out;
    }
  }

  /** The nodes produced from node `k` on: what node `k` becomes, then the rest. */
  lemma ProducedStep(nodes: seq<Node>, pass: Pass, find: (Pass, string) -> seq<Match>, k: nat, keyOffset: nat)
    requires k < |nodes|
    ensures Produced(nodes, pass, find, k, keyOffset)
         == Parse(nodes[k], pass, find, keyOffset) + Produced(nodes, pass, find, k + 1, NextOffset(nodes[k], pass, find, keyOffset))
  {
    var out := Parse(nodes[k], pass, find, keyOffset);
    ProcessFromAcc(nodes, pass, find, k + 1, NextOffset(nodes[k], pass, find, keyOffset), [] + out);
    assert [] + out == out;
  }

  /** A node and what follows it. */
  lemma Unfold(nodes: seq<Node>, k: nat)
    requires k < |nodes|
    ensures Flatten(nodes[k..]) == Piece(nodes[k]) + Flatten(nodes[k + 1..])
    ensures forall p :: ElemsOf(nodes[k..], p) == (if nodes[k].Elem? && nodes[k].pass == p then [nodes[k]] else []) + ElemsOf(nodes[k + 1..], p)
    ensures forall p :: OtherElems(nodes[k..], p) == (if nodes[k].Elem? && nodes[k].pass != p then [nodes[k]] else []) + OtherElems(nodes[k + 1..], p)
  {
    assert nodes[k..][0] == nodes[k];
    assert nodes[k..][1..] == nodes[k + 1..];
  }

  /** A node stands for the same text once parsed. */
  lemma ParseFlatten(n: Node, pass: Pass, find: (Pass, string) -> seq<Match>, keyOffset: nat)
    requires FinderOk(find)
    ensures Flatten(Parse(n, pass, find, keyOffset)) == Piece(n)
  {
    if n.Str? {
      assert MatchesOk(n.s, find(pass, n.s));
      SplitFlatten(n.s, find(pass, n.s), pass, keyOffset);
    } else {
      assert [n][1..] == [];
    }
  }

  /** A pass preserves the text the nodes from `k` on stand for. */
  lemma {:induction false} ProducedFlatten(nodes: seq<Node>, pass: Pass, find: (Pass, string) -> seq<Match>, k: nat, keyOffset: nat)
    requires FinderOk(find) && k <= |nodes|
    ensures Flatten(Produced(nodes, pass, find, k, keyOffset)) == Flatten(nodes[k..])
    decreases |nodes| - k
  {
    if k < |nodes| {
      var next := NextOffset(nodes[k], pass, find, keyOffset);
      ProducedStep(nodes, pass, find, k, keyOffset);
      ProducedFlatten(nodes, pass, find, k + 1, next);
      ParseFlatten(nodes[k], pass, find, keyOffset);
      FlattenConcat(Parse(nodes[k], pass, find, keyOffset), Produced(nodes, pass, find, k + 1, next));
      Unfold(nodes, k);
    } else {
      assert nodes[k..] == [];
    }
  }

  /** A pass preserves the text the nodes stand for. */
  lemma ProcessFlatten(nodes: seq<Node>, pass: Pass, find: (Pass, string) -> seq<Match>)
    requires FinderOk(find)
    ensures Flatten(Process(nodes, pass, find)) == Flatten(nodes)
  {
    ProducedFlatten(nodes, pass, find, 0, 0);
    assert nodes[0..] == nodes;
  }

  /** Parsing one node adds elements of the pass only. */
  lemma ParseElems(n: Node, pass: Pass, find: (Pass, string) -> seq<Match>, keyOffset: nat)
    ensures OtherElems(Parse(n, pass, find, keyOffset), pass) == OtherElems([n], pass)
  {
    if n.Str? {
      SplitElems(n.s, find(pass, n.s), pass, keyOffset);
    }
  }

  /** A pass carries the elements of the other passes from node `k` on through unchanged and in order. */
  lemma {:induction false} ProducedKeepsOtherElems(nodes: seq<Node>, pass: Pass, find: (Pass, string) -> seq<Match>, k: nat, keyOffset: nat)
    requires k <= |nodes|
    ensures OtherElems(Produced(nodes, pass, find, k, keyOffset), pass) == OtherElems(nodes[k..], pass)
    decreases |nodes| - k
  {
    if k < |nodes| {
      var next := NextOffset(nodes[k], pass, find, keyOffset);
      ProducedStep(nodes, pass, find, k, keyOffset);
      ProducedKeepsOtherElems(nodes, pass, find, k + 1, next);
      ParseElems(nodes[k], pass, find, keyOffset);
      OtherElemsConcat(Parse(nodes[k], pass, find, keyOffset), Produced(nodes, pass, find, k + 1, next), pass);
      Unfold(nodes, k);
      assert [nodes[k]][1..] == [];
    } else {
      assert nodes[k..] == [];
    }
  }

  /** A pass carries the elements of the other passes through unchanged and in their order. */
  lemma ProcessKeepsOtherElems(nodes: seq<Node>, pass: Pass, find: (Pass, string) -> seq<Match>)
    ensures OtherElems(Process(nodes, pass, find), pass) == OtherElems(nodes, pass)
  {
    ProducedKeepsOtherElems(nodes, pass, find, 0, 0);
    assert nodes[0..] == nodes;
  }

  /** Nodes with no element of a pass other than `p` have no element of `q`. */
  lemma {:induction false} NoOtherElemsNoElemsOf(nodes: seq<Node>, p: Pass, q: Pass)
    requires q != p && OtherElems(nodes, p) == []
    ensures ElemsOf(nodes, q) == []
  {
    if nodes != [] {
      NoOtherElemsNoElemsOf(nodes[1..], p, q);
    }
  }

  /** Parsing one node with pass `pass` leaves the elements of pass `q` as they were. */
  lemma ParseElemsOf(n: Node, pass: Pass, find: (Pass, string) -> seq<Match>, keyOffset: nat, q: Pass)
    requires q != pass
    ensures ElemsOf(Parse(n, pass, find, keyOffset), q) == ElemsOf([n], q)
  {
    if n.Str? {
      SplitElems(n.s, find(pass, n.s), pass, keyOffset);
      NoOtherElemsNoElemsOf(Parse(n, pass, find, keyOffset), pass, q);
    }
  }

  /** A pass leaves the elements of another pass `q`, from node `k` on, exactly as they were. */
  lemma {:induction false} ProducedKeepsElemsOf(nodes: seq<Node>, pass: Pass, find: (Pass, string) -> seq<Match>, k: nat, keyOffset: nat, q: Pass)
    requires k <= |nodes| && q != pass
    ensures ElemsOf(Produced(nodes, pass, find, k, keyOffset), q) == ElemsOf(nodes[k..], q)
    decreases |nodes| - k
  {
    if k < |nodes| {
      var next := NextOffset(nodes[k], pass, find, keyOffset);
      ProducedStep(nodes, pass, find, k, keyOffset);
      ProducedKeepsElemsOf(nodes, pass, find, k + 1, next, q);
      ParseElemsOf(nodes[k], pass, find, keyOffset, q);
      ElemsOfConcat(Parse(nodes[k], pass, find, keyOffset), Produced(nodes, pass, find, k + 1, next), q);
      Unfold(nodes, k);
      assert [nodes[k]][1..] == [];
    } else {
      assert nodes[k..] == [];
    }
  }

  /** A pass leaves the elements of another pass `q` exactly as they were. */
  lemma ProcessKeepsElemsOf(nodes: seq<Node>, pass: Pass, find: (Pass, string) -> seq<Match>, q: Pass)
    requires q != pass
    ensures ElemsOf(Process(nodes, pass, find), q) == ElemsOf(nodes, q)
  {
    ProducedKeepsElemsOf(nodes, pass, find, 0, 0, q);
    assert nodes[0..] == nodes;
  }

  /** The keys `keyOffset-index` of elements, as the numbers `keyOffset + index`. */
  function KeyNumbers(es: seq<Node>): (ks: seq<int>)
    ensures |ks| <= |es|
  {
    if es == [] then []
    else (if es[0].Elem? then [es[0].keyOffset + es[0].index] else []) + KeyNumbers(es[1..])
  }

  predicate StrictlyIncreasing(xs: seq<int>) {
    forall i, j :: 0 <= i < j < |xs| ==> xs[i] < xs[j]
  }

  /** The key numbers of the rendered matches `i`, `i + 1`, … are `keyOffset + i`, `keyOffset + i + 1`, …. */
  lemma {:induction false} RenderedKeyNumbers(es: seq<Node>, ms: seq<Match>, pass: Pass, keyOffset: nat, i: nat)
    requires RenderedFrom(es, ms, pass, keyOffset, i)
    ensures |KeyNumbers(es)| == |es|
    ensures forall j :: 0 <= j < |es| ==> KeyNumbers(es)[j] == keyOffset + i + j
    decreases |es|
  {
    if es != [] {
      RenderedKeyNumbers(es[1..], ms, pass, keyOffset, i + 1);
    }
  }

  lemma {:induction false} KeyNumbersConcat(a: seq<Node>, b: seq<Node>)
    ensures KeyNumbers(a + b) == KeyNumbers(a) + KeyNumbers(b)
  {
    if a == [] {
      assert a + b == b;
    } else {
      assert (a + b)[1..] == a[1..] + b;
      KeyNumbersConcat(a[1..], b);
    }
  }

  /** Strictly increasing numbers, all at least `lo`. */
  predicate KeysFrom(ks: seq<int>, lo: int) {
    StrictlyIncreasing(ks) && forall i :: 0 <= i < |ks| ==> ks[i] >= lo
  }

  /** Numbers in `[lo, mid)` followed by numbers from `mid` on. */
  lemma KeysAppend(a: seq<int>, b: seq<int>, lo: int, mid: int)
    requires lo <= mid && StrictlyIncreasing(a) && forall i :: 0 <= i < |a| ==> lo <= a[i] < mid
    requires KeysFrom(b, mid)
    ensures KeysFrom(a + b, lo)
  {
    var c := a + b;
    forall i, j | 0 <= i < j < |c|
      ensures c[i] < c[j]
    {
      if j < |a| {
      } else if i < |a| {
        assert c[j] == b[j - |a|];
      } else {
        assert c[i] == b[i - |a|] && c[j] == b[j - |a|];
      }
    }
    forall i | 0 <= i < |c|
      ensures c[i] >= lo
    {
      if i >= |a| {
        assert c[i] == b[i - |a|];
      }
    }
  }

  /** The new elements one node yields have key numbers in `[keyOffset, NextOffset)`, increasing. */
  lemma ParseKeys(n: Node, pass: Pass, find: (Pass, string) -> seq<Match>, keyOffset: nat)
    requires !(n.Elem? && n.pass == pass)
    ensures var ks := KeyNumbers(ElemsOf(Parse(n, pass, find, keyOffset), pass));
      StrictlyIncreasing(ks) && forall i :: 0 <= i < |ks| ==> keyOffset <= ks[i] < NextOffset(n, pass, find, keyOffset)
  {
    var es := ElemsOf(Parse(n, pass, find, keyOffset), pass);
    if n.Str? {
      var ms := find(pass, n.s);
      SplitElems(n.s, ms, pass, keyOffset);
      RenderedKeyNumbers(es, ms, pass, keyOffset, 0);
      assert |es| <= |Parse(n, pass, find, keyOffset)|;
    } else {
      assert es == [];
    }
  }

  /** No node is an element of pass `p`. */
  predicate NoElemsOf(nodes: seq<Node>, p: Pass) {
    forall i :: 0 <= i < |nodes| ==> !(nodes[i].Elem? && nodes[i].pass == p)
  }

  lemma {:induction false} NoElemsOfSpec(nodes: seq<Node>, p: Pass)
    ensures ElemsOf(nodes, p) == [] <==> NoElemsOf(nodes, p)
  {
    if nodes != [] {
      NoElemsOfSpec(nodes[1..], p);
      assert forall i :: 1 <= i < |nodes| ==> nodes[i] == nodes[1..][i - 1];
    }
  }

  /**
    Within one pass over nodes that hold no element of that pass yet, the key
    numbers of the elements made from node `k` on start at the key offset and
    strictly increase.
   */
  lemma {:induction false} ProducedKeysIncrease(nodes: seq<Node>, pass: Pass, find: (Pass, string) -> seq<Match>, k: nat, keyOffset: nat)
    requires k <= |nodes| && NoElemsOf(nodes, pass)
    ensures KeysFrom(KeyNumbers(ElemsOf(Produced(nodes, pass, find, k, keyOffset), pass)), keyOffset)
    decreases |nodes| - k
  {
    if k < |nodes| {
      var next := NextOffset(nodes[k], pass, find, keyOffset);
      var out := Parse(nodes[k], pass, find, keyOffset);
      var rest := Produced(nodes, pass, find, k + 1, next);
      ProducedStep(nodes, pass, find, k, keyOffset);
      ProducedKeysIncrease(nodes, pass, find, k + 1, next);
      ParseKeys(nodes[k], pass, find, keyOffset);
      ElemsOfConcat(out, rest, pass);
      KeyNumbersConcat(ElemsOf(out, pass), ElemsOf(rest, pass));
      KeysAppend(KeyNumbers(ElemsOf(out, pass)), KeyNumbers(ElemsOf(rest, pass)), keyOffset, next);
    }
  }

  /**
    Within one pass over nodes that hold no element of that pass yet, the key
    numbers of the new elements strictly increase, so the React keys
    `<pass>-<keyOffset>-<index>` are pairwise distinct.
   */
  lemma ProcessKeysIncrease(nodes: seq<Node>, pass: Pass, find: (Pass, string) -> seq<Match>)
    requires ElemsOf(nodes, pass) == []
    ensures StrictlyIncreasing(KeyNumbers(ElemsOf(Process(nodes, pass, find), pass)))
  {
    NoElemsOfSpec(nodes, pass);
    ProducedKeysIncrease(nodes, pass, find, 0, 0);
  }

  /** The result of `renderMarkdown`: one node, or the array of nodes. */
  datatype Rendered = Single(node: Node) | Fragment(nodes: seq<Node>)

  /** The nodes after applying `passes` in order to `nodes`. */
  function ApplyPasses(nodes: seq<Node>, passes: seq<Pass>, find: (Pass, string) -> seq<Match>): seq<Node>
    decreases |passes|
  {
    if passes == [] then nodes
    else ApplyPasses(Process(nodes, passes[0], find), passes[1..], find)
  }

  /** `renderMarkdown`: the six passes in their fixed order on `[text]`. */
  function RenderMarkdown(text: string, find: (Pass, string) -> seq<Match>): Rendered {
    var nodes := ApplyPasses([Str(text)], PassOrder, find);
    if |nodes| == 1 then Single(nodes[0]) else Fragment(nodes)
  }

  /** The nodes of a rendering. */
  function NodesOf(r: Rendered): seq<Node> {
    match r
    case Single(n) => [n]
    case Fragment(ns) => ns
  }

  lemma RenderNodes(text: string, find: (Pass, string) -> seq<Match>)
    ensures NodesOf(RenderMarkdown(text, find)) == ApplyPasses([Str(text)], PassOrder, find)
  {
    var nodes := ApplyPasses([Str(text)], PassOrder, find);
    if |nodes| == 1 {
      assert [nodes[0]] == nodes;
    }
  }

  lemma {:induction false} ApplyPassesFlatten(nodes: seq<Node>, passes: seq<Pass>, find: (Pass, string) -> seq<Match>)
    requires FinderOk(find)
    ensures Flatten(ApplyPasses(nodes, passes, find)) == Flatten(nodes)
    decreases |passes|
  {
    if passes != [] {
      ProcessFlatten(nodes, passes[0], find);
      ApplyPassesFlatten(Process(nodes, passes[0], find), passes[1..], find);
    }
  }

  /** The rendered nodes, read as source text, give back the input. */
  lemma RenderFlatten(text: string, find: (Pass, string) -> seq<Match>)
    requires FinderOk(find)
    ensures Flatten(NodesOf(RenderMarkdown(text, find))) == text
  {
    RenderNodes(text, find);
    ApplyPassesFlatten([Str(text)], PassOrder, find);
    assert Flatten([Str(text)]) == text;
  }

  /** A pass that finds nothing in a lone string gives it back. */
  lemma ProcessPlain(text: string, pass: Pass, find: (Pass, string) -> seq<Match>)
    requires find(pass, text) == []
    ensures Process([Str(text)], pass, find) == [Str(text)]
  {
    SplitNoMatches(text, pass, 0);
    ProducedStep([Str(text)], pass, find, 0, 0);
    assert [] + [Str(text)] == [Str(text)];
  }

  lemma {:induction false} ApplyPassesPlain(text: string, passes: seq<Pass>, find: (Pass, string) -> seq<Match>)
    requires forall i :: 0 <= i < |passes| ==> find(passes[i], text) == []
    ensures ApplyPasses([Str(text)], passes, find) == [Str(text)]
    decreases |passes|
  {
    if passes != [] {
      ProcessPlain(text, passes[0], find);
      ApplyPassesPlain(text, passes[1..], find);
    }
  }

  /** Text in which no pass finds anything comes back as the single unchanged string. */
  lemma RenderPlain(text: string, find: (Pass, string) -> seq<Match>)
    requires forall p :: find(p, text) == []
    ensures RenderMarkdown(text, find) == Single(Str(text))
  {
    ApplyPassesPlain(text, PassOrder, find);
  }

  lemma {:induction false} ApplyPassesKeepsElemsOf(nodes: seq<Node>, passes: seq<Pass>, find: (Pass, string) -> seq<Match>, q: Pass)
    requires q !in passes
    ensures ElemsOf(ApplyPasses(nodes, passes, find), q) == ElemsOf(nodes, q)
    decreases |passes|
  {
    if passes != [] {
      ProcessKeepsElemsOf(nodes, passes[0], find, q);
      ApplyPassesKeepsElemsOf(Process(nodes, passes[0], find), passes[1..], find, q);
    }
  }

  /** Applying all passes is applying the first `k`, then pass `k`, then the rest. */
  lemma {:induction false} ApplyPassesSplit(nodes: seq<Node>, passes: seq<Pass>, k: nat, find: (Pass, string) -> seq<Match>)
    requires k < |passes|
    ensures ApplyPasses(nodes, passes, find)
         == ApplyPasses(Process(ApplyPasses(nodes, passes[..k], find), passes[k], find), passes[k + 1..], find)
    decreases k
  {
    if k == 0 {
      assert passes[..0] == [];
      assert ApplyPasses(nodes, passes[..0], find) == nodes;
    } else {
      var next := Process(nodes, passes[0], find);
      ApplyPassesSplit(next, passes[1..], k - 1, find);
      assert passes[..k][0] == passes[0];
      assert passes[..k][1..] == passes[1..][..k - 1];
      assert passes[1..][k - 1] == passes[k];
      assert passes[1..][k..] == passes[k + 1..];
    }
  }

  /** Each pass occurs once in the pass order. */
  lemma PassOrderDistinct(k: nat)
    requires k < |PassOrder|
    ensures PassOrder[k] !in PassOrder[..k] && PassOrder[k] !in PassOrder[k + 1..]
  {
  }

  /** In the whole rendering, the keys of each pass are pairwise distinct (their numbers strictly increase). */
  lemma RenderKeysDistinct(text: string, find: (Pass, string) -> seq<Match>, k: nat)
    requires k < |PassOrder|
    ensures StrictlyIncreasing(KeyNumbers(ElemsOf(NodesOf(RenderMarkdown(text, find)), PassOrder[k])))
  {
    var q := PassOrder[k];
    var start: seq<Node> := [Str(text)];
    assert ElemsOf(start, q) == [];
    PassOrderDistinct(k);
    RenderNodes(text, find);
    ApplyPassesSplit(start, PassOrder, k, find);
    var before := ApplyPasses(start, PassOrder[..k], find);
    ApplyPassesKeepsElemsOf(start, PassOrder[..k], find, q);
    var after := Process(before, q, find);
    ProcessKeysIncrease(before, q, find);
    ApplyPassesKeepsElemsOf(after, PassOrder[k + 1..], find, q);
  }
}
