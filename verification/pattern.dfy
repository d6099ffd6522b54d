/** The regular expressions of the parsers, modelled as hand-written scanners.

    Every pattern the parsers use has the shape
        (?:label|label|...) lead \s*(.*?) stop          with the `i` flag
    where a label is a literal, or two literals with `\s*` between them; the
    lead is `:` or `\s*</close>\s*<open[^>]*>`; and the stop is `(?:\r?\n|<br>)`
    or `\s*</tag>`. `IsMatch` says declaratively when the pattern matches at a
    position with given split points; `FirstMatch` is what `String.prototype.match`
    returns: the leftmost start, and at that start the first match in the
    engine's backtracking order (earlier alternative first, then the greedy
    `\s*` longest first, then the lazy capture shortest first). */
module Pattern {
  import opened JsText
  import opened Options

  /** One label alternative: `head`, followed, when `tail` is not empty, by `\s*` and `tail`. */
  datatype Label = Label(head: string, tail: string)

  /** What stands between the label and the captured value. */
  datatype Lead =
    | Colon                               // `:`
    | Cells(close: string, open: string)  // `\s*` close `\s*` open `[^>]*>`

  /** What ends the captured value. */
  datatype Stop =
    | LineBreak                           // `(?:\r?\n|<br>)`
    | CloseTag(tag: string)               // `\s*` tag

  datatype Motif = Motif(labels: seq<Label>, lead: Lead, stop: Stop)

  /** Every `\s*` of the motif is followed by a literal that starts with a
      non-space character (true of all patterns of the parsers). */
  predicate WellFormed(m: Motif) {
    && (forall l :: l in m.labels ==> l.tail == [] || StartsSolid(l.tail))
    && (m.lead.Cells? ==> StartsSolid(m.lead.close) && StartsSolid(m.lead.open))
    && (m.stop.CloseTag? ==> StartsSolid(m.stop.tag))
  }

  /** The split points of one match: the label alternative `alt`, the end `gap`
      of the `\s*` inside the label, the end of the label, the starts `t1`, `t2`
      of the two tags of the lead and the `>` at `gt` that closes the second,
      the start `g` of the `\s*` before the value, the value `cs..ce` (capture
      group 1) and the start `h` of what stops it. */
  datatype Split = Split(alt: nat, gap: nat, labelEnd: nat, t1: nat, t2: nat, gt: nat,
                         g: nat, cs: nat, ce: nat, h: nat)

  datatype Hit = Hit(start: nat, split: Split)

  /** `\r?\n` or `<br>` at `q`. */
  predicate BreakAt(s: string, q: nat) {
    LitAt(s, q, "\r\n") || LitAt(s, q, "\n") || LitAt(s, q, "<br>")
  }

  /** What a line break starts with. */
  lemma BreakAtFirst(s: string, q: nat)
    requires BreakAt(s, q)
    ensures q < |s|
    ensures s[q] == '\r' || s[q] == '\n' || (s[q] == '<' && q + 3 < |s| && s[q + 3] == '>')
  {
    if LitAt(s, q, "\r\n") {
      assert SameIgnoringCase(s[q + 0], "\r\n"[0]);
      SameAsSymbol(s[q], '\r');
    } else if LitAt(s, q, "\n") {
      assert SameIgnoringCase(s[q + 0], "\n"[0]);
      SameAsSymbol(s[q], '\n');
    } else {
      assert SameIgnoringCase(s[q + 0], "<br>"[0]) && SameIgnoringCase(s[q + 3], "<br>"[3]);
      SameAsSymbol(s[q], '<');
      SameAsSymbol(s[q + 3], '>');
    }
  }

  predicate LabelMatch(s: string, i: nat, l: Label, gap: nat, e: nat) {
    && LitAt(s, i, l.head)
    && if l.tail == [] then gap == i + |l.head| && e == gap
       else SpaceRun(s, i + |l.head|, gap) && LitAt(s, gap, l.tail) && e == gap + |l.tail|
  }

  predicate LeadMatch(s: string, lead: Lead, e: nat, t1: nat, t2: nat, gt: nat, g: nat) {
    match lead
    case Colon => LitAt(s, e, ":") && g == e + 1
    case Cells(close, open) =>
      && SpaceRun(s, e, t1) && LitAt(s, t1, close)
      && SpaceRun(s, t1 + |close|, t2) && LitAt(s, t2, open)
      && NoGtRun(s, t2 + |open|, gt) && gt < |s| && s[gt] == '>'
      && g == gt + 1
  }

  predicate StopMatch(s: string, stop: Stop, ce: nat, h: nat) {
    match stop
    case LineBreak => h == ce && BreakAt(s, ce)
    case CloseTag(tag) => SpaceRun(s, ce, h) && LitAt(s, h, tag)
  }

  /** `\s*(.*?)` stop, from `g`, with the value at `cs..ce`. */
  predicate CaptureMatch(s: string, stop: Stop, g: nat, cs: nat, ce: nat, h: nat) {
    SpaceRun(s, g, cs) && NoBreakRun(s, cs, ce) && StopMatch(s, stop, ce, h)
  }

  /** The motif matches `s` at `i`, split as `sp` says. */
  predicate IsMatch(m: Motif, s: string, i: nat, sp: Split) {
    && sp.alt < |m.labels|
    && LabelMatch(s, i, m.labels[sp.alt], sp.gap, sp.labelEnd)
    && LeadMatch(s, m.lead, sp.labelEnd, sp.t1, sp.t2, sp.gt, sp.g)
    && CaptureMatch(s, m.stop, sp.g, sp.cs, sp.ce, sp.h)
  }

  /** The engine tries match `a` at `i` no later than match `b` at `j`. */
  predicate Preferred(i: nat, a: Split, j: nat, b: Split) {
    || i < j
    || (i == j && a.alt < b.alt)
    || (i == j && a.alt == b.alt && b.cs < a.cs)
    || (i == j && a.alt == b.alt && b.cs == a.cs && a.ce <= b.ce)
  }

  // ----- the scanner -----

  /** The label alternative `l` at `i`: the end of its inner `\s*` and its end. */
  function LabelAt(s: string, i: nat, l: Label): (r: Option<(nat, nat)>)
    ensures r.Some? ==> LabelMatch(s, i, l, r.value.0, r.value.1)
  {
    if !LitAt(s, i, l.head) then None
    else if l.tail == [] then Some((i + |l.head|, i + |l.head|))
    else
      var gap := SkipSpace(s, i + |l.head|);
      if LitAt(s, gap, l.tail) then Some((gap, gap + |l.tail|)) else None
  }

  /** The first `>` at or after `x`, where a greedy `[^>]*` from `x` must stop. */
  function FirstGt(s: string, x: nat): (r: Option<nat>)
    requires x <= |s|
    ensures r.Some? ==> NoGtRun(s, x, r.value) && r.value < |s| && s[r.value] == '>'
    ensures r.None? ==> NoGtRun(s, x, |s|)
    decreases |s| - x
  {
    if x == |s| then None else if s[x] == '>' then Some(x) else FirstGt(s, x + 1)
  }

  /** The lead after the label end `e`: the tag starts, the `>` and the start of the value part. */
  function LeadAt(s: string, lead: Lead, e: nat): (r: Option<(nat, nat, nat, nat)>)
    requires e <= |s|
    ensures r.Some? ==> LeadMatch(s, lead, e, r.value.0, r.value.1, r.value.2, r.value.3)
    ensures r.Some? ==> r.value.3 <= |s|
  {
    match lead
    case Colon => if LitAt(s, e, ":") then Some((e, e, e, e + 1)) else None
    case Cells(close, open) =>
      var t1 := SkipSpace(s, e);
      if !LitAt(s, t1, close) then None
      else
        var t2 := SkipSpace(s, t1 + |close|);
        if !LitAt(s, t2, open) then None
        else
          match FirstGt(s, t2 + |open|)
          case None => None
          case Some(gt) => Some((t1, t2, gt, gt + 1))
  }

  /** Whether the stop matches right after a value ending at `q`, and where its tag starts. */
  function StopAt(s: string, stop: Stop, q: nat): (r: Option<nat>)
    requires q <= |s|
    ensures r.Some? ==> StopMatch(s, stop, q, r.value)
  {
    match stop
    case LineBreak => if BreakAt(s, q) then Some(q) else None
    case CloseTag(tag) =>
      var h := SkipSpace(s, q);
      if LitAt(s, h, tag) then Some(h) else None
  }

  /** The lazy `(.*?)` from `x`: the shortest value after which the stop matches. */
  function LazyStop(s: string, stop: Stop, x: nat): (r: Option<(nat, nat)>)
    requires x <= |s|
    ensures r.Some? ==> NoBreakRun(s, x, r.value.0) && StopMatch(s, stop, r.value.0, r.value.1)
    decreases |s| - x
  {
    match StopAt(s, stop, x)
    case Some(h) => Some((x, h))
    case None =>
      if x < |s| && !IsLineTerminator(s[x]) then LazyStop(s, stop, x + 1) else None
  }

  /** The greedy `\s*` from `g`, currently holding `g..x`, giving back one
      character at a time until the lazy value can be completed. */
  function Backtrack(s: string, stop: Stop, g: nat, x: nat): (r: Option<(nat, nat, nat)>)
    requires SpaceRun(s, g, x)
    ensures r.Some? ==> CaptureMatch(s, stop, g, r.value.0, r.value.1, r.value.2) && r.value.0 <= x
    decreases x
  {
    match LazyStop(s, stop, x)
    case Some((ce, h)) => Some((x, ce, h))
    case None => if x == g then None else Backtrack(s, stop, g, x - 1)
  }

  /** The match at `i` using the alternatives from the `k`-th on, in order. */
  function TryLabels(m: Motif, s: string, i: nat, k: nat): (r: Option<Split>)
    ensures r.Some? ==> IsMatch(m, s, i, r.value) && k <= r.value.alt
    decreases |m.labels| - k
  {
    if k >= |m.labels| then None
    else
      match LabelAt(s, i, m.labels[k])
      case None => TryLabels(m, s, i, k + 1)
      case Some((gap, e)) =>
        match LeadAt(s, m.lead, e)
        case None => TryLabels(m, s, i, k + 1)
        case Some((t1, t2, gt, g)) =>
          match Backtrack(s, m.stop, g, SkipSpace(s, g))
          case None => TryLabels(m, s, i, k + 1)
          case Some((cs, ce, h)) => Some(Split(k, gap, e, t1, t2, gt, g, cs, ce, h))
  }

  /** The first match starting at `x` or later. */
  function Leftmost(m: Motif, s: string, x: nat): (r: Option<Hit>)
    requires x <= |s|
    ensures r.Some? ==> x <= r.value.start && IsMatch(m, s, r.value.start, r.value.split)
    decreases |s| - x
  {
    match TryLabels(m, s, x, 0)
    case Some(sp) => Some(Hit(x, sp))
    case None => if x == |s| then None else Leftmost(m, s, x + 1)
  }

  /** `s.match(re)` for a pattern without the `g` flag. */
  function FirstMatch(m: Motif, s: string): (r: Option<Hit>)
    ensures r.Some? ==> IsMatch(m, s, r.value.start, r.value.split)
  {
    Leftmost(m, s, 0)
  }

  /** Capture group 1 of the first match, `s.match(re)[1]`. */
  function Group(m: Motif, s: string): (r: Option<string>)
    ensures r.Some? ==> NoLineTerminator(r.value)
  {
    match FirstMatch(m, s)
    case None => None
    case Some(hit) =>
      var c := s[hit.split.cs..hit.split.ce];
      assert forall k :: 0 <= k < |c| ==> c[k] == s[hit.split.cs + k];
      Some(c)
  }

  // ----- the scanner finds exactly the engine's match -----

  lemma LabelAtComplete(s: string, i: nat, l: Label, gap: nat, e: nat)
    requires l.tail == [] || StartsSolid(l.tail)
    requires LabelMatch(s, i, l, gap, e)
    ensures LabelAt(s, i, l) == Some((gap, e))
  {
    if l.tail != [] {
      SpaceThenSolid(s, i + |l.head|, gap, l.tail);
    }
  }

  lemma FirstGtComplete(s: string, x: nat, gt: nat)
    requires NoGtRun(s, x, gt) && gt < |s| && s[gt] == '>'
    ensures FirstGt(s, x) == Some(gt)
  {
  }

  lemma LeadAtComplete(s: string, lead: Lead, e: nat, t1: nat, t2: nat, gt: nat, g: nat)
    requires lead.Cells? ==> StartsSolid(lead.close) && StartsSolid(lead.open)
    requires e <= |s| && LeadMatch(s, lead, e, t1, t2, gt, g)
    ensures LeadAt(s, lead, e).Some? && LeadAt(s, lead, e).value.3 == g
  {
    if lead.Cells? {
      SpaceThenSolid(s, e, t1, lead.close);
      SpaceThenSolid(s, t1 + |lead.close|, t2, lead.open);
      FirstGtComplete(s, t2 + |lead.open|, gt);
    }
  }

  lemma StopAtComplete(s: string, stop: Stop, q: nat, h: nat)
    requires stop.CloseTag? ==> StartsSolid(stop.tag)
    requires q <= |s| && StopMatch(s, stop, q, h)
    ensures StopAt(s, stop, q) == Some(h)
  {
    if stop.CloseTag? {
      SpaceThenSolid(s, q, h, stop.tag);
    }
  }

  /** The lazy value is no longer than any value after which the stop matches. */
  lemma {:induction false} LazyStopShortest(s: string, stop: Stop, x: nat, ce: nat, h: nat)
    requires stop.CloseTag? ==> StartsSolid(stop.tag)
    requires NoBreakRun(s, x, ce) && StopMatch(s, stop, ce, h)
    ensures LazyStop(s, stop, x).Some? && LazyStop(s, stop, x).value.0 <= ce
    decreases ce - x
  {
    if StopAt(s, stop, x).None? {
      if x == ce {
        StopAtComplete(s, stop, ce, h);
      } else {
        LazyStopShortest(s, stop, x + 1, ce, h);
      }
    }
  }

  /** Backtracking finds a value, and the one it finds starts no earlier and,
      from the same start, ends no later than any other. */
  lemma {:induction false} BacktrackBest(s: string, stop: Stop, g: nat, x: nat, cs: nat, ce: nat, h: nat)
    requires stop.CloseTag? ==> StartsSolid(stop.tag)
    requires SpaceRun(s, g, x) && CaptureMatch(s, stop, g, cs, ce, h) && cs <= x
    ensures Backtrack(s, stop, g, x).Some?
    ensures var r := Backtrack(s, stop, g, x).value; cs < r.0 || (cs == r.0 && r.1 <= ce)
    decreases x
  {
    if cs == x {
      LazyStopShortest(s, stop, x, ce, h);
    } else if LazyStop(s, stop, x).None? {
      BacktrackBest(s, stop, g, x - 1, cs, ce, h);
    }
  }

  /** The alternative a match uses is found when the scan reaches it, with a value preferred to the match's. */
  lemma TryLabelAtAlt(m: Motif, s: string, i: nat, sp: Split)
    requires WellFormed(m) && IsMatch(m, s, i, sp)
    ensures TryLabels(m, s, i, sp.alt).Some?
    ensures TryLabels(m, s, i, sp.alt).value.alt == sp.alt
    ensures Preferred(i, TryLabels(m, s, i, sp.alt).value, i, sp)
  {
    var l := m.labels[sp.alt];
    assert l in m.labels;
    LabelAtComplete(s, i, l, sp.gap, sp.labelEnd);
    LeadAtComplete(s, m.lead, sp.labelEnd, sp.t1, sp.t2, sp.gt, sp.g);
    var lead := LeadAt(s, m.lead, sp.labelEnd).value;
    var x := SkipSpace(s, sp.g);
    SpaceRunWithinSkip(s, sp.g, sp.cs);
    BacktrackBest(s, m.stop, sp.g, x, sp.cs, sp.ce, sp.h);
    var b := Backtrack(s, m.stop, sp.g, x).value;
    assert TryLabels(m, s, i, sp.alt)
      == Some(Split(sp.alt, sp.gap, sp.labelEnd, lead.0, lead.1, lead.2, sp.g, b.0, b.1, b.2));
  }

  lemma {:induction false} TryLabelsBest(m: Motif, s: string, i: nat, k: nat, sp: Split)
    requires WellFormed(m) && IsMatch(m, s, i, sp) && k <= sp.alt
    ensures TryLabels(m, s, i, k).Some? && Preferred(i, TryLabels(m, s, i, k).value, i, sp)
    decreases sp.alt - k
  {
    if k < sp.alt {
      var r := TryLabels(m, s, i, k);
      if r.None? || r.value.alt != k {
        assert r == TryLabels(m, s, i, k + 1);
        TryLabelsBest(m, s, i, k + 1, sp);
      }
    } else {
      TryLabelAtAlt(m, s, i, sp);
    }
  }

  lemma {:induction false} LeftmostBest(m: Motif, s: string, x: nat, i: nat, sp: Split)
    requires WellFormed(m) && IsMatch(m, s, i, sp) && x <= i
    ensures Leftmost(m, s, x).Some?
    ensures Preferred(Leftmost(m, s, x).value.start, Leftmost(m, s, x).value.split, i, sp)
    decreases i - x
  {
    if x == i {
      TryLabelsBest(m, s, i, 0, sp);
    } else if TryLabels(m, s, x, 0).None? {
      LeftmostBest(m, s, x + 1, i, sp);
    }
  }

  /** The scanner agrees with the engine: whenever the motif matches anywhere,
      `FirstMatch` finds a match, and it is tried no later than that one (so it
      is the leftmost, and at its start the first in backtracking order). With
      the contract of `FirstMatch`, `FirstMatch` is `None` exactly when the
      motif matches nowhere. */
  lemma FirstMatchIsFirst(m: Motif, s: string, i: nat, sp: Split)
    requires WellFormed(m) && IsMatch(m, s, i, sp)
    ensures FirstMatch(m, s).Some?
    ensures Preferred(FirstMatch(m, s).value.start, FirstMatch(m, s).value.split, i, sp)
  {
    LeftmostBest(m, s, 0, i, sp);
  }

  /** There is a capture exactly when the motif matches somewhere. */
  lemma GroupIffMatch(m: Motif, s: string)
    requires WellFormed(m)
    ensures Group(m, s).Some? <==> exists i: nat, sp: Split :: IsMatch(m, s, i, sp)
  {
    if exists i: nat, sp: Split :: IsMatch(m, s, i, sp) {
      var i: nat, sp: Split :| IsMatch(m, s, i, sp);
      FirstMatchIsFirst(m, s, i, sp);
    }
  }

  /** A match whose value every match the engine would try first shares is
      the one whose value `match` returns. */
  lemma PreferredValue(m: Motif, s: string, i: nat, sp: Split)
    requires WellFormed(m) && IsMatch(m, s, i, sp)
    requires forall j: nat, b: Split :: IsMatch(m, s, j, b) && Preferred(j, b, i, sp) ==> b.cs == sp.cs && b.ce == sp.ce
    ensures Group(m, s) == Some(s[sp.cs..sp.ce])
  {
    FirstMatchIsFirst(m, s, i, sp);
  }

  // ----- consequences for the captured value -----

  /** With a closing-tag stop, the captured value never begins or ends with
      white space: the greedy `\s*` before it takes all leading space, and the
      lazy capture stops before trailing space that the `\s*` after it can take. */
  lemma CloseTagGroupTrimmed(m: Motif, s: string)
    requires WellFormed(m) && m.stop.CloseTag? && Group(m, s).Some?
    ensures IsTrimmed(Group(m, s).value)
  {
    var hit := FirstMatch(m, s).value;
    var i, sp := hit.start, hit.split;
    var c := Group(m, s).value;
    if c != [] {
      GroupStartsSolid(m, s);
      GroupEndsSolid(m, s);
    }
  }

  lemma GroupStartsSolid(m: Motif, s: string)
    requires WellFormed(m) && m.stop.CloseTag? && FirstMatch(m, s).Some?
    requires FirstMatch(m, s).value.split.cs < FirstMatch(m, s).value.split.ce
    ensures !IsSpace(s[FirstMatch(m, s).value.split.cs])
  {
    var hit := FirstMatch(m, s).value;
    var i, sp := hit.start, hit.split;
    var tag := m.stop.tag;
    if IsSpace(s[sp.cs]) {
      var x := SkipSpace(s, sp.g);
      assert SpaceRun(s, sp.g, sp.cs + 1);
      SpaceRunWithinSkip(s, sp.g, sp.cs + 1);
      if x <= sp.ce {
        var other := sp.(cs := x);
        assert IsMatch(m, s, i, other);
        FirstMatchIsFirst(m, s, i, other);
      } else {
        assert SpaceRun(s, sp.g, sp.h);
        SpaceRunWithinSkip(s, sp.g, sp.h);
        SpaceRunWithinSkip(s, sp.ce, x);
        SpaceThenSolid(s, sp.ce, sp.h, tag);
        var other := sp.(cs := x, ce := x);
        assert IsMatch(m, s, i, other);
        FirstMatchIsFirst(m, s, i, other);
      }
    }
  }

  lemma GroupEndsSolid(m: Motif, s: string)
    requires WellFormed(m) && m.stop.CloseTag? && FirstMatch(m, s).Some?
    requires FirstMatch(m, s).value.split.cs < FirstMatch(m, s).value.split.ce
    ensures !IsSpace(s[FirstMatch(m, s).value.split.ce - 1])
  {
    var hit := FirstMatch(m, s).value;
    var i, sp := hit.start, hit.split;
    if IsSpace(s[sp.ce - 1]) {
      var other := sp.(ce := sp.ce - 1);
      assert IsMatch(m, s, i, other);
      FirstMatchIsFirst(m, s, i, other);
    }
  }

  // ----- alternation: the earlier complete motif in the text wins -----

  /** The motif restricted to its `k`-th label alternative. */
  function Only(m: Motif, k: nat): Motif
    requires k < |m.labels|
  {
    Motif([m.labels[k]], m.lead, m.stop)
  }

  function AsSecond(r: Option<Split>): Option<Split> {
    match r
    case None => None
    case Some(sp) => Some(sp.(alt := 1))
  }

  /** Of a match of the first and one of the second alternative, the one that starts first; the first on a tie. */
  function Earlier(a: Option<Hit>, b: Option<Hit>): Option<Hit> {
    match (a, b)
    case (None, None) => None
    case (Some(_), None) => a
    case (None, Some(hb)) => Some(Hit(hb.start, hb.split.(alt := 1)))
    case (Some(ha), Some(hb)) =>
      if ha.start <= hb.start then a else Some(Hit(hb.start, hb.split.(alt := 1)))
  }

  lemma TryTwoLabels(m: Motif, s: string, i: nat)
    requires |m.labels| == 2
    ensures TryLabels(m, s, i, 0)
         == if TryLabels(Only(m, 0), s, i, 0).Some? then TryLabels(Only(m, 0), s, i, 0)
            else AsSecond(TryLabels(Only(m, 1), s, i, 0))
  {
    assert TryLabels(m, s, i, 2) == None;
    assert TryLabels(Only(m, 0), s, i, 1) == None;
    assert TryLabels(Only(m, 1), s, i, 1) == None;
  }

  lemma {:induction false} LeftmostOfTwo(m: Motif, s: string, x: nat)
    requires |m.labels| == 2 && x <= |s|
    ensures Leftmost(m, s, x) == Earlier(Leftmost(Only(m, 0), s, x), Leftmost(Only(m, 1), s, x))
    decreases |s| - x
  {
    TryTwoLabels(m, s, x);
    if TryLabels(Only(m, 0), s, x, 0).Some? {
      FirstWinsHere(m, s, x);
    } else if TryLabels(Only(m, 1), s, x, 0).Some? {
      SecondWinsHere(m, s, x);
    } else if x < |s| {
      LeftmostOfTwo(m, s, x + 1);
      NoneHere(m, s, x);
    }
  }

  lemma FirstWinsHere(m: Motif, s: string, x: nat)
    requires |m.labels| == 2 && x <= |s|
    requires TryLabels(Only(m, 0), s, x, 0).Some?
    requires TryLabels(m, s, x, 0) == TryLabels(Only(m, 0), s, x, 0)
    ensures Leftmost(m, s, x) == Earlier(Leftmost(Only(m, 0), s, x), Leftmost(Only(m, 1), s, x))
  {
    var sp := TryLabels(m, s, x, 0).value;
    assert Leftmost(m, s, x) == Some(Hit(x, sp));
    assert Leftmost(Only(m, 0), s, x) == Some(Hit(x, sp));
  }

  lemma SecondWinsHere(m: Motif, s: string, x: nat)
    requires |m.labels| == 2 && x <= |s|
    requires TryLabels(Only(m, 0), s, x, 0).None? && TryLabels(Only(m, 1), s, x, 0).Some?
    requires TryLabels(m, s, x, 0) == AsSecond(TryLabels(Only(m, 1), s, x, 0))
    ensures Leftmost(m, s, x) == Earlier(Leftmost(Only(m, 0), s, x), Leftmost(Only(m, 1), s, x))
  {
    var sp := TryLabels(Only(m, 1), s, x, 0).value;
    assert Leftmost(m, s, x) == Some(Hit(x, sp.(alt := 1)));
    assert Leftmost(Only(m, 1), s, x) == Some(Hit(x, sp));
    var l0 := Leftmost(Only(m, 0), s, x);
    assert l0.Some? ==> x < l0.value.start;
  }

  lemma NoneHere(m: Motif, s: string, x: nat)
    requires |m.labels| == 2 && x < |s|
    requires TryLabels(Only(m, 0), s, x, 0).None? && TryLabels(Only(m, 1), s, x, 0).None?
    requires TryLabels(m, s, x, 0).None?
    requires Leftmost(m, s, x + 1) == Earlier(Leftmost(Only(m, 0), s, x + 1), Leftmost(Only(m, 1), s, x + 1))
    ensures Leftmost(m, s, x) == Earlier(Leftmost(Only(m, 0), s, x), Leftmost(Only(m, 1), s, x))
  {
    assert Leftmost(m, s, x) == Leftmost(m, s, x + 1);
    assert Leftmost(Only(m, 0), s, x) == Leftmost(Only(m, 0), s, x + 1);
    assert Leftmost(Only(m, 1), s, x) == Leftmost(Only(m, 1), s, x + 1);
  }

  /** For a two-way alternation, the value comes from whichever alternative
      matches first in the text (the first alternative on a tie), and there is
      a value exactly when one of the alternatives matches. */
  lemma EarlierAlternativeWins(m: Motif, s: string)
    requires |m.labels| == 2
    ensures var a, b := FirstMatch(Only(m, 0), s), FirstMatch(Only(m, 1), s);
      && (Group(m, s).Some? <==> a.Some? || b.Some?)
      && (a.Some? && (b.None? || a.value.start <= b.value.start) ==> Group(m, s) == Group(Only(m, 0), s))
      && (b.Some? && (a.None? || b.value.start < a.value.start) ==> Group(m, s) == Group(Only(m, 1), s))
  {
    LeftmostOfTwo(m, s, 0);
  }
}
