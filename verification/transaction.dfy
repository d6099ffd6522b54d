/** `parseTransactionDetails`: four fields of a bank transfer notification,
    each read from the first place in the markup where its label is followed
    by a value in a fixed markup shape, and `N/A` where there is none. */
module Transaction {
  import opened JsText
  import opened Options
  import opened Pattern

  /** What a field holds when its pattern finds no value. */
  const Sentinel: string := "N/A"

  datatype TransactionDetails = TransactionDetails(penerima: string, nominal: string, noRef: string, sumberDana: string)

  /** `/Penerima\s*<\/p>\s*<h4[^>]*>\s*(.*?)\s*<\/h4>/i` */
  const PenerimaPattern: Motif :=
    Motif([Label("Penerima", "")], Cells("</p>", "<h4"), CloseTag("</h4>"))

  /** `/(?:Nominal Transaksi|Jumlah Transfer)\s*<\/td>\s*<td[^>]*>\s*(.*?)\s*<\/td>/i` */
  const NominalPattern: Motif :=
    Motif([Label("Nominal Transaksi", ""), Label("Jumlah Transfer", "")], Cells("</td>", "<td"), CloseTag("</td>"))

  /** `/No\.\s*Referensi\s*<\/td>\s*<td[^>]*>\s*(.*?)\s*<\/td>/i` */
  const NoRefPattern: Motif :=
    Motif([Label("No.", "Referensi")], Cells("</td>", "<td"), CloseTag("</td>"))

  /** `/(?:Sumber Dana|Rekening Sumber)\s*<\/p>\s*<h4[^>]*>\s*(.*?)\s*<\/h4>/i` */
  const SumberDanaPattern: Motif :=
    Motif([Label("Sumber Dana", ""), Label("Rekening Sumber", "")], Cells("</p>", "<h4"), CloseTag("</h4>"))

  /** A pattern of this parser: a closing-tag stop and solid literals after every `\s*`. */
  predicate CellPattern(m: Motif) {
    WellFormed(m) && m.stop.CloseTag?
  }

  lemma PatternsWellFormed()
    ensures CellPattern(PenerimaPattern) && CellPattern(NominalPattern)
    ensures CellPattern(NoRefPattern) && CellPattern(SumberDanaPattern)
  {
  }

  /** A field value as the notification shows it: never empty, never padded, on one line. */
  predicate IsCleanField(v: string) {
    v != [] && IsTrimmed(v) && NoLineTerminator(v)
  }

  /** `if (match && match[1]) field = match[1].trim()`, the field starting as the sentinel. */
  function Field(m: Motif, html: string): (r: string)
    requires CellPattern(m)
    ensures Group(m, html).None? || Group(m, html).value == [] ==> r == Sentinel
    ensures Group(m, html).Some? && Group(m, html).value != [] ==> r == Group(m, html).value
    ensures IsCleanField(r)
  {
    match Group(m, html)
    case None => Sentinel
    case Some(c) =>
      if c == [] then Sentinel
      else
        CloseTagGroupTrimmed(m, html);
        TrimTrimmed(c);
        Trim(c)
  }

  /** `parseTransactionDetails(html)`. */
  function ParseTransactionDetails(html: string): (d: TransactionDetails)
    ensures html == [] ==> d == TransactionDetails(Sentinel, Sentinel, Sentinel, Sentinel)
    ensures IsCleanField(d.penerima) && IsCleanField(d.nominal)
    ensures IsCleanField(d.noRef) && IsCleanField(d.sumberDana)
  {
    PatternsWellFormed();
    if html == [] then TransactionDetails(Sentinel, Sentinel, Sentinel, Sentinel)
    else
      TransactionDetails(
        Field(PenerimaPattern, html),
        Field(NominalPattern, html),
        Field(NoRefPattern, html),
        Field(SumberDanaPattern, html))
  }

  /** A field that is not the sentinel is the value of a match that the
      engine tries before every other match of the pattern. */
  lemma FieldFromFirstMatch(m: Motif, html: string)
    requires CellPattern(m) && Group(m, html).Some? && Group(m, html).value != []
    ensures exists i: nat, sp: Split ::
      && IsMatch(m, html, i, sp)
      && Field(m, html) == html[sp.cs..sp.ce]
      && forall j: nat, b: Split :: IsMatch(m, html, j, b) ==> Preferred(i, sp, j, b)
  {
    var hit := FirstMatch(m, html).value;
    forall j: nat, b: Split | IsMatch(m, html, j, b)
      ensures Preferred(hit.start, hit.split, j, b)
    {
      FirstMatchIsFirst(m, html, j, b);
    }
  }

  /** No pattern matches empty markup, so without the early return for it the
      parser would give the same all-sentinel result. */
  lemma EmptyMarkupEarlyReturnRedundant()
    ensures ParseTransactionDetails([])
         == TransactionDetails(Field(PenerimaPattern, []), Field(NominalPattern, []),
                               Field(NoRefPattern, []), Field(SumberDanaPattern, []))
  {
    PatternsWellFormed();
    EmptyMarkupHasNoMatch(PenerimaPattern);
    EmptyMarkupHasNoMatch(NominalPattern);
    EmptyMarkupHasNoMatch(NoRefPattern);
    EmptyMarkupHasNoMatch(SumberDanaPattern);
  }

  lemma EmptyMarkupHasNoMatch(m: Motif)
    requires CellPattern(m) && forall l :: l in m.labels ==> l.head != []
    ensures Group(m, []) == None
  {
    assert TryLabels(m, [], 0, 0) == None by {
      TryLabelsEmpty(m, 0);
    }
  }

  lemma {:induction false} TryLabelsEmpty(m: Motif, k: nat)
    requires forall l :: l in m.labels ==> l.head != []
    ensures TryLabels(m, [], 0, k) == None
    decreases |m.labels| - k
  {
    if k < |m.labels| {
      assert m.labels[k] in m.labels;
      TryLabelsEmpty(m, k + 1);
    }
  }

  /** For a pattern with two label alternatives, the field takes its value from
      whichever alternative starts a complete match earlier in the markup. */
  lemma {:induction false} FieldOfTwo(m: Motif, html: string)
    requires CellPattern(m) && |m.labels| == 2
    ensures CellPattern(Only(m, 0)) && CellPattern(Only(m, 1))
    ensures var a, b := FirstMatch(Only(m, 0), html), FirstMatch(Only(m, 1), html);
      && (a.Some? && (b.None? || a.value.start <= b.value.start) ==> Field(m, html) == Field(Only(m, 0), html))
      && (b.Some? && (a.None? || b.value.start < a.value.start) ==> Field(m, html) == Field(Only(m, 1), html))
      && (a.None? && b.None? ==> Field(m, html) == Sentinel)
  {
    assert m.labels[0] in m.labels && m.labels[1] in m.labels;
    EarlierAlternativeWins(m, html);
  }

  /** A value for `nominal` comes from whichever label, `Nominal Transaksi` or
      `Jumlah Transfer`, starts a complete match earlier in the markup. */
  lemma NominalEarlierLabelWins(html: string)
    ensures CellPattern(Only(NominalPattern, 0)) && CellPattern(Only(NominalPattern, 1))
    ensures var a, b := FirstMatch(Only(NominalPattern, 0), html), FirstMatch(Only(NominalPattern, 1), html);
      && (a.Some? && (b.None? || a.value.start <= b.value.start) ==>
            ParseTransactionDetails(html).nominal == Field(Only(NominalPattern, 0), html))
      && (b.Some? && (a.None? || b.value.start < a.value.start) ==>
            ParseTransactionDetails(html).nominal == Field(Only(NominalPattern, 1), html))
      && (a.None? && b.None? ==> ParseTransactionDetails(html).nominal == Sentinel)
  {
    PatternsWellFormed();
    if html == [] {
      EmptyMarkupEarlyReturnRedundant();
    }
    assert ParseTransactionDetails(html).nominal == Field(NominalPattern, html);
    FieldOfTwo(NominalPattern, html);
  }

  /** The same for `sumberDana`, between `Sumber Dana` and `Rekening Sumber`. */
  lemma SumberDanaEarlierLabelWins(html: string)
    ensures CellPattern(Only(SumberDanaPattern, 0)) && CellPattern(Only(SumberDanaPattern, 1))
    ensures var a, b := FirstMatch(Only(SumberDanaPattern, 0), html), FirstMatch(Only(SumberDanaPattern, 1), html);
      && (a.Some? && (b.None? || a.value.start <= b.value.start) ==>
            ParseTransactionDetails(html).sumberDana == Field(Only(SumberDanaPattern, 0), html))
      && (b.Some? && (a.None? || b.value.start < a.value.start) ==>
            ParseTransactionDetails(html).sumberDana == Field(Only(SumberDanaPattern, 1), html))
      && (a.None? && b.None? ==> ParseTransactionDetails(html).sumberDana == Sentinel)
  {
    PatternsWellFormed();
    if html == [] {
      EmptyMarkupEarlyReturnRedundant();
    }
    assert ParseTransactionDetails(html).sumberDana == Field(SumberDanaPattern, html);
    FieldOfTwo(SumberDanaPattern, html);
  }

  /** The shape the parser is written for: the recipient's name in the `<h4>`
      heading right after the `Penerima` paragraph becomes `penerima`. */
  lemma PenerimaFromHeading(v: string, rest: string)
    requires IsCleanField(v) && '<' !in v
    ensures ParseTransactionDetails("Penerima</p><h4>" + v + "</h4>" + rest).penerima == v
  {
    var html := "Penerima</p><h4>" + v + "</h4>" + rest;
    HeadingGroup(v, rest, html);
    PatternsWellFormed();
    assert ParseTransactionDetails(html).penerima == Field(PenerimaPattern, html);
  }

  lemma HeadingGroup(v: string, rest: string, html: string)
    requires IsCleanField(v) && '<' !in v
    requires html == "Penerima</p><h4>" + v + "</h4>" + rest
    ensures Group(PenerimaPattern, html) == Some(v)
  {
    var n := 16 + |v|;
    var sp := Split(0, 8, 8, 8, 12, 15, 16, 16, n, n);
    HeadingMatch(v, rest, html);
    forall j: nat, b: Split | IsMatch(PenerimaPattern, html, j, b) && Preferred(j, b, 0, sp)
      ensures b.cs == sp.cs && b.ce == sp.ce
    {
      HeadingMatchUnique(v, rest, html, b);
    }
    PatternsWellFormed();
    PreferredValue(PenerimaPattern, html, 0, sp);
    HeadingSlice(v, rest, html);
  }

  lemma HeadingSlice(v: string, rest: string, html: string)
    requires html == "Penerima</p><h4>" + v + "</h4>" + rest
    ensures 16 + |v| <= |html| && html[16..16 + |v|] == v
  {
  }

  lemma HeadingText(v: string, rest: string, html: string)
    requires html == "Penerima</p><h4>" + v + "</h4>" + rest
    ensures |html| >= 21 + |v|
    ensures html[..16] == "Penerima</p><h4>"
    ensures forall k :: 0 <= k < |v| ==> html[16 + k] == v[k]
    ensures html[16 + |v|..21 + |v|] == "</h4>"
  {
  }

  lemma HeadingMatch(v: string, rest: string, html: string)
    requires IsCleanField(v) && '<' !in v
    requires html == "Penerima</p><h4>" + v + "</h4>" + rest
    ensures IsMatch(PenerimaPattern, html, 0, Split(0, 8, 8, 8, 12, 15, 16, 16, 16 + |v|, 16 + |v|))
  {
    var n := 16 + |v|;
    HeadingText(v, rest, html);
    assert LabelMatch(html, 0, Label("Penerima", ""), 8, 8) by {
      assert forall k :: 0 <= k < 8 ==> html[k] == "Penerima"[k];
    }
    assert LeadMatch(html, Cells("</p>", "<h4"), 8, 8, 12, 15, 16) by {
      assert forall k :: 0 <= k < 4 ==> html[8 + k] == "</p>"[k];
      assert forall k :: 0 <= k < 3 ==> html[12 + k] == "<h4"[k];
      assert html[15] == '>';
    }
    assert NoBreakRun(html, 16, n);
    assert LitAt(html, n, "</h4>") by {
      assert forall k :: 0 <= k < 5 ==> html[n + k] == "</h4>"[k];
    }
  }

  /** Every match at the start of such markup has exactly the heading text as its value. */
  lemma HeadingMatchUnique(v: string, rest: string, html: string, b: Split)
    requires IsCleanField(v) && '<' !in v
    requires html == "Penerima</p><h4>" + v + "</h4>" + rest
    requires IsMatch(PenerimaPattern, html, 0, b) && (16 < b.cs || b.ce <= 16 + |v|)
    ensures b.cs == 16 && b.ce == 16 + |v|
  {
    HeadingText(v, rest, html);
    HeadingValueStart(v, html, b);
    HeadingValueEnd(v, html, b);
  }

  lemma HeadingValueStart(v: string, html: string, b: Split)
    requires IsCleanField(v) && |html| >= 21 + |v| && html[..16] == "Penerima</p><h4>"
    requires forall k :: 0 <= k < |v| ==> html[16 + k] == v[k]
    requires IsMatch(PenerimaPattern, html, 0, b)
    ensures b.cs == 16
  {
    assert html[8] == '<' && html[12] == '<' && html[15] == '>' && html[16] == v[0];
    assert b.alt == 0 && b.labelEnd == 8;
    assert !IsSpace(html[8]) && !IsSpace(html[12]) && !IsSpace(html[16]);
    assert b.t1 == 8 && b.t2 == 12 && b.gt == 15;
  }

  lemma HeadingValueEnd(v: string, html: string, b: Split)
    requires IsCleanField(v) && '<' !in v && |html| >= 21 + |v|
    requires forall k :: 0 <= k < |v| ==> html[16 + k] == v[k]
    requires b.cs == 16 && b.ce <= 16 + |v| && CaptureMatch(html, CloseTag("</h4>"), b.g, b.cs, b.ce, b.h)
    ensures b.ce == 16 + |v|
  {
    var n := 16 + |v|;
    assert SameIgnoringCase(html[b.h + 0], "</h4>"[0]);
    SameAsSymbol(html[b.h], '<');
    assert forall q :: 16 <= q < n ==> html[q] == v[q - 16] && html[q] != '<';
    assert !IsSpace(html[n - 1]);
  }
}
