/**
 * parseText of the chat screen: splits a message into normal text,
 * "thoughts" in parentheses and "actions" in square brackets, by repeatedly
 * running the global regular expression  /\((.*?)\)|\[([^\]]+)\]/g  and
 * keeping the text between matches.
 *
 * The expression is read under ECMAScript RegExp semantics (section 22.2 of
 * ECMA-262): `.` matches anything but a line terminator, `.*?` stops at the
 * first `)`, `[^\]]+` runs greedily to the first `]` (line terminators
 * included) and needs at least one character, and `exec` on a global
 * expression returns the leftmost match at or after `lastIndex`.
 */
module ChatText {

  import opened Wrappers
  import JsText
  import opened Seqs

  datatype PartType = Normal | Thought | Action

  datatype Part = Part(text: string, kind: PartType)

  /**
   * One result of `exec`: where the match starts and ends, which capture
   * group took part (1 for parentheses, 2 for brackets) and what it captured.
   */
  datatype Match = Match(index: nat, end: nat, group: nat, content: string)

  /** The first position at or after k holding `)` or a line terminator, or |text|. */
  function ParenStop(text: string, k: nat): (c: nat)
    requires k <= |text|
    ensures k <= c <= |text|
    ensures forall j :: k <= j < c ==> text[j] != ')' && !JsText.IsLineTerminator(text[j])
    ensures c < |text| ==> text[c] == ')' || JsText.IsLineTerminator(text[c])
    decreases |text| - k
  {
    if k == |text| || text[k] == ')' || JsText.IsLineTerminator(text[k]) then k
    else ParenStop(text, k + 1)
  }

  /** The first position at or after k holding `]`, or |text|. */
  function BracketStop(text: string, k: nat): (c: nat)
    requires k <= |text|
    ensures k <= c <= |text|
    ensures forall j :: k <= j < c ==> text[j] != ']'
    ensures c < |text| ==> text[c] == ']'
    decreases |text| - k
  {
    if k == |text| || text[k] == ']' then k else BracketStop(text, k + 1)
  }

  predicate ThoughtContent(c: string) {
    c != [] && forall j :: 0 <= j < |c| ==> c[j] != ')' && !JsText.IsLineTerminator(c[j])
  }

  predicate ActionContent(c: string) {
    c != [] && forall j :: 0 <= j < |c| ==> c[j] != ']'
  }

  /** A match, read back against the text it was taken from. */
  predicate MatchOf(text: string, i: nat, m: Match) {
    && m.index == i && i + 2 <= m.end <= |text|
    && m.content == text[i + 1..m.end - 1]
    && (m.group == 1 || m.group == 2)
    && (m.group == 1 ==>
          text[i] == '(' && text[m.end - 1] == ')' &&
          forall j :: 0 <= j < |m.content| ==> m.content[j] != ')' && !JsText.IsLineTerminator(m.content[j]))
    && (m.group == 2 ==> text[i] == '[' && text[m.end - 1] == ']' && ActionContent(m.content))
  }

  /**
   * A thought match ends at the first `)` after its `(`, and an action match at
   * the first `]` after its `[`: a match read back against the text is the
   * one the stops give.
   */
  lemma MatchOfStops(text: string, i: nat, m: Match)
    requires i < |text| && MatchOf(text, i, m)
    ensures m.group == 1 ==> ParenStop(text, i + 1) == m.end - 1
    ensures m.group == 2 ==> BracketStop(text, i + 1) == m.end - 1
  {
    var e := m.end - 1;
    assert forall j :: i + 1 <= j < e ==> text[j] == m.content[j - i - 1];
    if m.group == 1 {
      assert forall j :: i + 1 <= j < e ==> text[j] != ')' && !JsText.IsLineTerminator(text[j]);
    } else {
      assert forall j :: i + 1 <= j < e ==> text[j] != ']';
    }
  }

  /** Every match at i ends where the stop of its alternative says. */
  lemma MatchAtComplete(text: string, i: nat)
    requires i <= |text|
    ensures forall m :: MatchOf(text, i, m) ==>
              && i < |text|
              && (m.group == 1 ==> ParenStop(text, i + 1) == m.end - 1)
              && (m.group == 2 ==> BracketStop(text, i + 1) == m.end - 1)
  {
    forall m | MatchOf(text, i, m)
      ensures i < |text|
      ensures m.group == 1 ==> ParenStop(text, i + 1) == m.end - 1
      ensures m.group == 2 ==> BracketStop(text, i + 1) == m.end - 1
    {
      MatchOfStops(text, i, m);
    }
  }

  /**
   * Whether the expression matches when started exactly at position i: the
   * result is a match, and any match there is the result. The two
   * alternatives start with different characters, so at most one applies.
   */
  function MatchAt(text: string, i: nat): (r: Option<Match>)
    requires i <= |text|
    ensures r.Some? ==> MatchOf(text, i, r.value)
    ensures forall m :: MatchOf(text, i, m) ==> r == Some(m)
  {
    MatchAtComplete(text, i);
    if i < |text| && text[i] == '(' then
      var c := ParenStop(text, i + 1);
      if c < |text| && text[c] == ')' then Some(Match(i, c + 1, 1, text[i + 1..c])) else None
    else if i < |text| && text[i] == '[' then
      var c := BracketStop(text, i + 1);
      if c < |text| && c > i + 1 then Some(Match(i, c + 1, 2, text[i + 1..c])) else None
    else None
  }

  /** At most one match starts at a position: the alternatives never both apply. */
  lemma MatchUnique(text: string, i: nat, m1: Match, m2: Match)
    requires i <= |text| && MatchOf(text, i, m1) && MatchOf(text, i, m2)
    ensures m1 == m2
  {
    assert MatchAt(text, i) == Some(m1);
  }

  /** `regex.exec(text)` with `regex.lastIndex == from`: the leftmost match at or after from. */
  function Exec(text: string, from: nat): (r: Option<Match>)
    requires from <= |text|
    ensures r.Some? ==> from <= r.value.index < |text| && MatchAt(text, r.value.index) == r
    ensures r.Some? ==> forall k :: from <= k < r.value.index ==> MatchAt(text, k).None?
    ensures r.None? ==> forall k :: from <= k <= |text| ==> MatchAt(text, k).None?
    decreases |text| - from
  {
    if MatchAt(text, from).Some? then MatchAt(text, from)
    else if from == |text| then None
    else Exec(text, from + 1)
  }

  /** The part pushed for a match: `match[1]` when truthy, else `match[2]` when truthy. */
  function MatchPart(m: Match): seq<Part> {
    if m.group == 1 && m.content != [] then [Part("(" + m.content + ")", Thought)]
    else if m.group == 2 && m.content != [] then [Part("[" + m.content + "]", Action)]
    else []
  }

  /** The parts produced from position `last` on, as the loop produces them. */
  function PartsFrom(text: string, last: nat): seq<Part>
    requires last <= |text|
    decreases |text| - last
  {
    match Exec(text, last)
    case None => if last < |text| then [Part(text[last..], Normal)] else []
    case Some(m) =>
      (if last < m.index then [Part(text[last..m.index], Normal)] else [])
      + MatchPart(m) + PartsFrom(text, m.end)
  }

  function Parts(text: string): seq<Part> {
    PartsFrom(text, 0)
  }

  /** One step of PartsFrom: the gap before the match, the match's part, then the rest. */
  lemma PartsFromStep(text: string, last: nat, m: Match)
    requires last <= |text| && Exec(text, last) == Some(m)
    ensures m.end <= |text| && last <= m.index
    ensures PartsFrom(text, last) ==
            (if last < m.index then [Part(text[last..m.index], Normal)] else []) + MatchPart(m) + PartsFrom(text, m.end)
  {
  }

  /** The loop's bookkeeping: pushing one step's parts keeps `parts ++ rest` equal to all parts. */
  lemma ParseStep(text: string, last: nat, m: Match, before: seq<Part>, after: seq<Part>)
    requires last <= |text| && Exec(text, last) == Some(m)
    requires before + PartsFrom(text, last) == Parts(text)
    requires after == before + (if last < m.index then [Part(text[last..m.index], Normal)] else []) + MatchPart(m)
    ensures m.end <= |text|
    ensures after + PartsFrom(text, m.end) == Parts(text)
  {
    PartsFromStep(text, last, m);
    var gap := if last < m.index then [Part(text[last..m.index], Normal)] else [];
    Regroup(before, gap, MatchPart(m), PartsFrom(text, m.end), PartsFrom(text, last));
  }

  lemma Regroup<T>(before: seq<T>, a: seq<T>, b: seq<T>, c: seq<T>, rest: seq<T>)
    requires rest == a + b + c
    ensures before + rest == before + a + b + c
  {
  }

  /** parseText: the `while ((match = regex.exec(text)) !== null)` loop. */
  method ParseText(text: string) returns (parts: seq<Part>)
    ensures parts == Parts(text)
  {
    parts := [];
    var lastIndex := 0;
    var found := Exec(text, lastIndex);
    while found.Some?
      invariant lastIndex <= |text|
      invariant found == Exec(text, lastIndex)
      invariant parts + PartsFrom(text, lastIndex) == Parts(text)
      decreases |text| - lastIndex
    {
      var m := found.value;
      ghost var before := parts;
      if lastIndex < m.index {
        parts := parts + [Part(text[lastIndex..m.index], Normal)];
      }
      ghost var withGap := parts;
      assert withGap == before + (if lastIndex < m.index then [Part(text[lastIndex..m.index], Normal)] else []);
      if m.group == 1 && m.content != [] {
        parts := parts + [Part("(" + m.content + ")", Thought)];
      } else if m.group == 2 && m.content != [] {
        parts := parts + [Part("[" + m.content + "]", Action)];
      }
      assert parts == withGap + MatchPart(m);
      ParseStep(text, lastIndex, m, before, parts);
      lastIndex := m.end;
      found := Exec(text, lastIndex);
    }
    ParseEnd(text, lastIndex, parts);
    if lastIndex < |text| {
      parts := parts + [Part(text[lastIndex..], Normal)];
    }
  }

  /** After the last match, the remaining text (if any) is the final part. */
  lemma ParseEnd(text: string, last: nat, parts: seq<Part>)
    requires last <= |text| && Exec(text, last).None?
    requires parts + PartsFrom(text, last) == Parts(text)
    ensures (if last < |text| then parts + [Part(text[last..], Normal)] else parts) == Parts(text)
  {
    if last == |text| {
      assert parts + [] == parts;
    }
  }

  // ---------------------------------------------------------------------------
  // Properties of the parts
  // ---------------------------------------------------------------------------

  function Concat(parts: seq<Part>): string {
    if parts == [] then [] else parts[0].text + Concat(parts[1..])
  }

  lemma {:induction false} ConcatAppend(a: seq<Part>, b: seq<Part>)
    ensures Concat(a + b) == Concat(a) + Concat(b)
  {
    if a == [] {
      assert a + b == b;
    } else {
      assert (a + b)[1..] == a[1..] + b;
      ConcatAppend(a[1..], b);
    }
  }

  /** The text holds no `()` anywhere. */
  predicate NoEmptyParens(text: string) {
    forall k :: 0 <= k < |text| - 1 ==> !(text[k] == '(' && text[k + 1] == ')')
  }

  /** Positions in increasing order, the first at or after `from`, each leaving room for the two characters it cuts. */
  predicate CutsAt(text: string, from: nat, cuts: seq<nat>)
    decreases |cuts|
  {
    cuts == [] || (from <= cuts[0] && cuts[0] + 2 <= |text| && CutsAt(text, cuts[0] + 2, cuts[1..]))
  }

  /**
   * The positions of the `()` matches the loop finds from `last` on: the
   * only matches whose `match[1]` is "" (falsy) and whose part is dropped.
   */
  function EmptyThoughts(text: string, last: nat): (cuts: seq<nat>)
    requires last <= |text|
    ensures CutsAt(text, last, cuts)
    decreases |text| - last
  {
    match Exec(text, last)
    case None => []
    case Some(m) =>
      var rest := EmptyThoughts(text, m.end);
      if MatchPart(m) == [] then
        assert m.end == m.index + 2;
        assert ([m.index] + rest)[1..] == rest;
        [m.index] + rest
      else
        CutsAtWeaken(text, last, m.end, rest);
        rest
  }

  /** Every cut is a `()` in the text, at or after `last`. */
  lemma {:induction false} EmptyThoughtsAreParens(text: string, last: nat)
    requires last <= |text|
    ensures forall c :: c in EmptyThoughts(text, last) ==>
              last <= c && c + 2 <= |text| && text[c] == '(' && text[c + 1] == ')'
    decreases |text| - last
  {
    match Exec(text, last)
    case None =>
    case Some(m) =>
      EmptyThoughtsAreParens(text, m.end);
      if MatchPart(m) == [] {
        assert m.end == m.index + 2 && text[m.index] == '(' && text[m.index + 1] == ')';
        assert EmptyThoughts(text, last) == [m.index] + EmptyThoughts(text, m.end);
      } else {
        assert EmptyThoughts(text, last) == EmptyThoughts(text, m.end);
      }
  }

  /** text[from..] with the two characters at each cut taken out. */
  function Cut(text: string, from: nat, cuts: seq<nat>): string
    requires from <= |text| && CutsAt(text, from, cuts)
    decreases |cuts|
  {
    if cuts == [] then text[from..]
    else text[from..cuts[0]] + Cut(text, cuts[0] + 2, cuts[1..])
  }

  /** Each cut takes out exactly two characters. */
  lemma {:induction false} CutLength(text: string, from: nat, cuts: seq<nat>)
    requires from <= |text| && CutsAt(text, from, cuts)
    ensures |Cut(text, from, cuts)| == |text| - from - 2 * |cuts|
    decreases |cuts|
  {
    if cuts != [] {
      CutLength(text, cuts[0] + 2, cuts[1..]);
    }
  }

  lemma {:induction false} CutsAtWeaken(text: string, from: nat, k: nat, cuts: seq<nat>)
    requires from <= k && CutsAt(text, k, cuts)
    ensures CutsAt(text, from, cuts)
  {
  }

  /** A leading cut at c keeps text[from..c] and skips the two characters at c. */
  lemma {:induction false} CutHead(text: string, from: nat, c: nat, rest: seq<nat>)
    requires from <= c && c + 2 <= |text| && CutsAt(text, c + 2, rest)
    ensures CutsAt(text, from, [c] + rest)
    ensures Cut(text, from, [c] + rest) == text[from..c] + Cut(text, c + 2, rest)
  {
    var cuts := [c] + rest;
    assert cuts[0] == c && cuts[1..] == rest;
  }

  /** Cuts that all lie at or after k leave text[from..k] untouched. */
  lemma {:induction false} CutSkip(text: string, from: nat, k: nat, cuts: seq<nat>)
    requires from <= k <= |text| && CutsAt(text, k, cuts)
    ensures CutsAt(text, from, cuts)
    ensures Cut(text, from, cuts) == text[from..k] + Cut(text, k, cuts)
  {
    CutsAtWeaken(text, from, k, cuts);
    if cuts == [] {
      CutSkipNone(text, from, k);
    } else {
      CutSkipFirst(text, from, k, cuts);
    }
  }

  lemma {:induction false} CutSkipNone(text: string, from: nat, k: nat)
    requires from <= k <= |text|
    ensures Cut(text, from, []) == text[from..k] + Cut(text, k, [])
  {
    SliceSplit(text, from, k, |text|);
    assert text[from..] == text[from..|text|] && text[k..] == text[k..|text|];
  }

  lemma {:induction false} CutSkipFirst(text: string, from: nat, k: nat, cuts: seq<nat>)
    requires from <= k <= |text| && cuts != [] && CutsAt(text, k, cuts) && CutsAt(text, from, cuts)
    ensures Cut(text, from, cuts) == text[from..k] + Cut(text, k, cuts)
  {
    var c := cuts[0];
    var tail := Cut(text, c + 2, cuts[1..]);
    CutUnfold(text, from, cuts);
    CutUnfold(text, k, cuts);
    SliceSplit(text, from, k, c);
    AppendAssoc(text[from..k], text[k..c], tail);
  }

  /** One step of `Cut`: the text up to the first cut, then the rest after the two dropped characters. */
  lemma {:induction false} CutUnfold(text: string, from: nat, cuts: seq<nat>)
    requires from <= |text| && cuts != [] && CutsAt(text, from, cuts)
    ensures Cut(text, from, cuts) == text[from..cuts[0]] + Cut(text, cuts[0] + 2, cuts[1..])
  {
  }

  /** One step of the join: the gap's text, the match's part, then the rest. */
  lemma {:induction false} StepConcat(text: string, last: nat, m: Match)
    requires last <= |text| && Exec(text, last) == Some(m)
    ensures last <= m.index <= m.end <= |text|
    ensures Concat(PartsFrom(text, last)) ==
            text[last..m.index] + KeptText(text, m) + Concat(PartsFrom(text, m.end))
  {
    if MatchPart(m) != [] {
      MatchPartText(text, m);
    }
    PartsFromStep(text, last, m);
    var gap := if last < m.index then [Part(text[last..m.index], Normal)] else [];
    assert Concat(gap) == text[last..m.index] by {
      if last < m.index {
        assert Concat(gap) == text[last..m.index] + Concat([]);
      }
    }
    ConcatAppend(gap + MatchPart(m), PartsFrom(text, m.end));
    ConcatAppend(gap, MatchPart(m));
  }

  /**
   * Joining the parts gives the text back with exactly the `()` matches
   * taken out: every other match's part is its matched text, and every gap
   * is kept as a normal part.
   */
  lemma {:induction false} PartsFromRoundTrip(text: string, last: nat)
    requires last <= |text|
    ensures Concat(PartsFrom(text, last)) == Cut(text, last, EmptyThoughts(text, last))
    decreases |text| - last
  {
    match Exec(text, last)
    case None =>
      if last < |text| {
        assert Concat([Part(text[last..], Normal)]) == text[last..] + Concat([]);
      }
    case Some(m) =>
      StepConcat(text, last, m);
      CutStep(text, last, m);
      PartsFromRoundTrip(text, m.end);
  }

  /** The text a match keeps: nothing for `()`, the matched text otherwise. */
  function KeptText(text: string, m: Match): string
    requires m.index <= m.end <= |text|
  {
    if MatchPart(m) == [] then [] else text[m.index..m.end]
  }

  /** One step of the cut text: the gap, what the match keeps, then the rest. */
  lemma {:induction false} CutStep(text: string, last: nat, m: Match)
    requires last <= |text| && Exec(text, last) == Some(m)
    ensures last <= m.index <= m.end <= |text|
    ensures Cut(text, last, EmptyThoughts(text, last)) ==
            text[last..m.index] + KeptText(text, m) + Cut(text, m.end, EmptyThoughts(text, m.end))
  {
    EmptyThoughtsStep(text, last, m);
    var dropped := MatchPart(m) == [];
    CutPiece(text, last, m.index, m.end, EmptyThoughts(text, m.end), dropped);
    assert (if dropped then [m.index] else []) + EmptyThoughts(text, m.end) == EmptyThoughts(text, last);
  }

  /** Cutting two characters at i, or none, between the gap text[last..i] and the cuts from e on. */
  lemma {:induction false} CutPiece(text: string, last: nat, i: nat, e: nat, rest: seq<nat>, dropped: bool)
    requires last <= i <= e <= |text| && CutsAt(text, e, rest)
    requires dropped ==> e == i + 2
    ensures CutsAt(text, last, (if dropped then [i] else []) + rest)
    ensures Cut(text, last, (if dropped then [i] else []) + rest) ==
            text[last..i] + (if dropped then [] else text[i..e]) + Cut(text, e, rest)
  {
    var gap, tail := text[last..i], Cut(text, e, rest);
    if dropped {
      CutHead(text, last, i, rest);
      assert gap + [] == gap;
    } else {
      assert [] + rest == rest;
      CutSkip(text, i, e, rest);
      CutSkip(text, last, i, rest);
      AppendAssoc(gap, text[i..e], tail);
    }
  }

  /** One step of EmptyThoughts: the match's position when it is `()`, then the rest. */
  lemma {:induction false} EmptyThoughtsStep(text: string, last: nat, m: Match)
    requires last <= |text| && Exec(text, last) == Some(m)
    ensures m.end <= |text|
    ensures MatchPart(m) == [] ==>
              m.end == m.index + 2 && EmptyThoughts(text, last) == [m.index] + EmptyThoughts(text, m.end)
    ensures MatchPart(m) != [] ==> EmptyThoughts(text, last) == EmptyThoughts(text, m.end)
  {
  }

  /** A match whose part is kept contributes exactly the matched text. */
  lemma {:induction false} MatchPartText(text: string, m: Match)
    requires m.index <= |text| && MatchOf(text, m.index, m) && MatchPart(m) != []
    ensures Concat(MatchPart(m)) == text[m.index..m.end]
  {
    assert Concat(MatchPart(m)) == MatchPart(m)[0].text + Concat([]);
    assert text[m.index..m.end] == [text[m.index]] + m.content + [text[m.end - 1]];
  }

  /**
   * For every text, the joined parts are the text minus two characters for
   * each `()` match, and those are the only characters lost.
   */
  lemma PartsConcat(text: string)
    ensures Concat(Parts(text)) == Cut(text, 0, EmptyThoughts(text, 0))
    ensures |Concat(Parts(text))| == |text| - 2 * |EmptyThoughts(text, 0)|
  {
    PartsFromRoundTrip(text, 0);
    CutLength(text, 0, EmptyThoughts(text, 0));
  }

  /** When the loop meets no `()` match, joining the parts gives the text back exactly. */
  lemma PartsRoundTrip(text: string)
    requires EmptyThoughts(text, 0) == []
    ensures Concat(Parts(text)) == text
  {
    PartsFromRoundTrip(text, 0);
    assert text[0..] == text;
  }

  /** A text with no `()` at all meets no `()` match. */
  lemma NoEmptyParensNoCuts(text: string)
    requires NoEmptyParens(text)
    ensures EmptyThoughts(text, 0) == []
  {
    NoEmptyParensNoCutsFrom(text, 0);
  }

  lemma {:induction false} NoEmptyParensNoCutsFrom(text: string, last: nat)
    requires last <= |text| && NoEmptyParens(text)
    ensures EmptyThoughts(text, last) == []
    decreases |text| - last
  {
    match Exec(text, last)
    case None =>
    case Some(m) =>
      NoEmptyParensNoCutsFrom(text, m.end);
      assert !(text[m.index] == '(' && text[m.index + 1] == ')');
      assert MatchPart(m) != [];
  }

  /** A `()` inside an action is part of the action's text, and nothing is lost. */
  lemma ParensInsideAction()
    ensures Parts("[f()]") == [Part("[f()]", Action)]
    ensures Concat(Parts("[f()]")) == "[f()]"
  {
    WholeAction("f()");
    assert "[" + "f()" + "]" == "[f()]";
    assert Concat([Part("[f()]", Action)]) == "[f()]" + Concat([]);
  }

  /** The shape every part has: non-empty normal text, `(c)` or `[c]` with a valid c. */
  predicate WellFormed(p: Part) {
    match p.kind
    case Normal => p.text != []
    case Thought => |p.text| >= 3 && p.text[0] == '(' && p.text[|p.text| - 1] == ')' &&
                    ThoughtContent(p.text[1..|p.text| - 1])
    case Action => |p.text| >= 3 && p.text[0] == '[' && p.text[|p.text| - 1] == ']' &&
                   ActionContent(p.text[1..|p.text| - 1])
  }

  lemma {:induction false} PartsFromWellFormed(text: string, last: nat)
    requires last <= |text|
    ensures forall p :: p in PartsFrom(text, last) ==> WellFormed(p)
    decreases |text| - last
  {
    match Exec(text, last)
    case None =>
    case Some(m) =>
      PartsFromStep(text, last, m);
      PartsFromWellFormed(text, m.end);
      MatchPartWellFormed(text, m);
      var gap := if last < m.index then [Part(text[last..m.index], Normal)] else [];
      assert forall p :: p in gap ==> WellFormed(p);
      AllWellFormedJoin(gap, MatchPart(m), PartsFrom(text, m.end));
  }

  /** The part a match pushes is well formed. */
  lemma MatchPartWellFormed(text: string, m: Match)
    requires MatchOf(text, m.index, m)
    ensures forall p :: p in MatchPart(m) ==> WellFormed(p)
  {
    if MatchPart(m) != [] {
      var t := MatchPart(m)[0].text;
      assert t[1..|t| - 1] == m.content;
    }
  }

  lemma AllWellFormedJoin(a: seq<Part>, b: seq<Part>, c: seq<Part>)
    requires forall p :: p in a ==> WellFormed(p)
    requires forall p :: p in b ==> WellFormed(p)
    requires forall p :: p in c ==> WellFormed(p)
    ensures forall p :: p in a + b + c ==> WellFormed(p)
  {
  }

  /** Every part is well formed; in particular no normal part is empty. */
  lemma PartsWellFormed(text: string)
    ensures forall p :: p in Parts(text) ==> WellFormed(p)
  {
    PartsFromWellFormed(text, 0);
  }

  /** Empty input gives no parts. */
  lemma PartsOfEmpty()
    ensures Parts("") == []
  {
    assert MatchAt("", 0).None?;
  }

  /** Text with neither `(` nor `[` comes back as a single normal part. */
  lemma PlainTextIsOnePart(text: string)
    requires text != []
    requires forall k :: 0 <= k < |text| ==> text[k] != '(' && text[k] != '['
    ensures Parts(text) == [Part(text, Normal)]
  {
    assert Exec(text, 0).None?;
    assert text[0..] == text;
  }

  /** A whole-message thought `(c)` is one thought part. */
  lemma WholeThought(c: string)
    requires ThoughtContent(c)
    ensures Parts("(" + c + ")") == [Part("(" + c + ")", Thought)]
  {
    var text := "(" + c + ")";
    assert text[1..|text| - 1] == c;
    assert forall j :: 1 <= j < |text| - 1 ==> text[j] == c[j - 1];
    assert text[|text| - 1] == ')';
    assert ParenStop(text, 1) == |text| - 1;
    assert MatchAt(text, 0) == Some(Match(0, |text|, 1, c));
    PartsFromStep(text, 0, Match(0, |text|, 1, c));
    assert PartsFrom(text, |text|) == [] by {
      assert Exec(text, |text|).None?;
    }
  }

  /** A whole-message action `[c]` is one action part. */
  lemma WholeAction(c: string)
    requires ActionContent(c)
    ensures Parts("[" + c + "]") == [Part("[" + c + "]", Action)]
  {
    var text := "[" + c + "]";
    assert text[1..|text| - 1] == c;
    assert forall j :: 1 <= j < |text| - 1 ==> text[j] == c[j - 1];
    assert text[|text| - 1] == ']';
    assert BracketStop(text, 1) == |text| - 1;
    assert MatchAt(text, 0) == Some(Match(0, |text|, 2, c));
    PartsFromStep(text, 0, Match(0, |text|, 2, c));
    assert PartsFrom(text, |text|) == [] by {
      assert Exec(text, |text|).None?;
    }
  }

  /** `a()b`: the empty thought disappears and leaves two normal parts. */
  lemma EmptyParensDropped()
    ensures Parts("a()b") == [Part("a", Normal), Part("b", Normal)]
  {
    var text := "a()b";
    assert MatchAt(text, 0).None?;
    assert ParenStop(text, 2) == 2;
    assert MatchAt(text, 1) == Some(Match(1, 3, 1, ""));
    assert Exec(text, 0) == Some(Match(1, 3, 1, ""));
    assert MatchAt(text, 3).None? && MatchAt(text, 4).None?;
    assert Exec(text, 3).None?;
    assert text[0..1] == "a" && text[3..] == "b";
  }

  /** A thought cannot run over a line break, so `(a` LF `b)` stays normal text. */
  lemma ThoughtStopsAtLineBreak()
    ensures Parts("(a\nb)") == [Part("(a\nb)", Normal)]
  {
    var text := "(a\nb)";
    assert ParenStop(text, 1) == 2 by {
      assert ParenStop(text, 2) == 2;
    }
    assert MatchAt(text, 0).None?;
    assert forall k :: 1 <= k <= |text| ==> MatchAt(text, k).None?;
    assert Exec(text, 0).None?;
    assert text[0..] == text;
  }
}
