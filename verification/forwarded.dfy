/** `parseForwardedMail`: the sender, subject and date of the original message
    quoted in the body of a forwarded one. */
module Forwarded {
  import opened JsText
  import opened Options
  import opened Pattern

  datatype ForwardedHeaders = ForwardedHeaders(from: Option<string>, subject: Option<string>, date: Option<string>)

  /** `/(?:Dari|From):\s*(.*?)(?:\r?\n|<br>)/i` */
  const FromPattern: Motif :=
    Motif([Label("Dari", ""), Label("From", "")], Colon, LineBreak)

  /** `/(?:Date|Tanggal|Sent):\s*(.*?)(?:\r?\n|<br>)/i` */
  const DatePattern: Motif :=
    Motif([Label("Date", ""), Label("Tanggal", ""), Label("Sent", "")], Colon, LineBreak)

  /** `/Subject:\s*(.*?)(?:\r?\n|<br>)/i` */
  const SubjectPattern: Motif :=
    Motif([Label("Subject", "")], Colon, LineBreak)

  lemma PatternsWellFormed()
    ensures WellFormed(FromPattern) && WellFormed(DatePattern) && WellFormed(SubjectPattern)
  {
  }

  /** No `<` in `s` has a `>` after it: nothing left that `/<[^>]*>/` could match. */
  predicate NoCompleteTag(s: string) {
    forall i, j :: 0 <= i < j < |s| && s[i] == '<' ==> s[j] != '>'
  }

  /** `s.replace(/<[^>]*>/g, '')`: from the left, every `<` that has a `>` after it
      is removed together with everything up to and including the first such `>`. */
  function StripTags(s: string): (r: string)
    ensures NoCompleteTag(r)
    ensures |r| <= |s|
    ensures forall c :: c in r ==> c in s
    decreases |s|
  {
    if s == [] then []
    else if s[0] == '<' && FirstGt(s, 1).Some? then StripTags(s[FirstGt(s, 1).value + 1..])
    else
      var rest := StripTags(s[1..]);
      assert s[0] == '<' ==> forall c :: c in rest ==> c != '>' by {
        if s[0] == '<' {
          forall c | c in rest ensures c != '>' {
            var k :| 0 <= k < |s[1..]| && s[1..][k] == c;
            assert s[1 + k] == c;
          }
        }
      }
      assert forall j :: 0 <= j < |rest| ==> rest[j] in rest;
      [s[0]] + rest
  }

  /** Stripping leaves text without complete tags as it is. */
  lemma {:induction false} StripTagsPlain(s: string)
    requires NoCompleteTag(s)
    ensures StripTags(s) == s
  {
    if s != [] {
      StripTagsPlain(s[1..]);
    }
  }

  /** Stripping is idempotent. */
  lemma StripTagsIdempotent(s: string)
    ensures StripTags(StripTags(s)) == StripTags(s)
  {
    StripTagsPlain(StripTags(s));
  }

  /** Text without `<` passes through stripping and the rest is stripped on its own. */
  lemma {:induction false} StripTagsAfterPlain(a: string, b: string)
    requires '<' !in a
    ensures StripTags(a + b) == a + StripTags(b)
  {
    if a == [] {
      assert a + b == b;
    } else {
      assert (a + b)[1..] == a[1..] + b;
      assert (a + b)[0] == a[0] && a[0] in a;
      StripTagsAfterPlain(a[1..], b);
      assert a == [a[0]] + a[1..];
    }
  }

  /** The first complete tag is removed as a whole and the text before it is
      kept; stripping then goes on after the tag. With `StripTagsPlain` this
      determines the result for every input. */
  lemma StripFirstTag(a: string, tag: string, b: string)
    requires '<' !in a && '>' !in tag
    ensures StripTags(a + "<" + tag + ">" + b) == a + StripTags(b)
  {
    var s := "<" + tag + ">" + b;
    assert a + "<" + tag + ">" + b == a + s;
    StripTagsAfterPlain(a, s);
    assert forall k :: 1 <= k < |tag| + 1 ==> s[k] == tag[k - 1] && s[k] != '>';
    assert s[|tag| + 1] == '>';
    FirstGtComplete(s, 1, |tag| + 1);
    assert s[|tag| + 2..] == b;
  }

  /** An angle-bracket address `<...>` is removed as a whole. */
  lemma StripAddress(addr: string)
    requires '>' !in addr
    ensures StripTags("<" + addr + ">") == []
  {
    StripFirstTag([], addr, []);
    assert [] + "<" + addr + ">" + [] == "<" + addr + ">";
  }

  /** A header value as `parseForwardedMail` leaves it: trimmed, tag-free and on one line. */
  predicate IsCleanHeader(v: string) {
    IsTrimmed(v) && NoCompleteTag(v) && NoLineTerminator(v)
  }

  lemma TrimKeepsClean(s: string)
    requires NoCompleteTag(s) && NoLineTerminator(s)
    ensures IsCleanHeader(Trim(s))
  {
    var r := Trim(s);
    var a: nat :| a + |r| <= |s| && r == s[a..a + |r|] && AllSpace(s[..a]) && AllSpace(s[a + |r|..]);
    forall i, j | 0 <= i < j < |r| && r[i] == '<' ensures r[j] != '>' {
      assert r[i] == s[a + i] && r[j] == s[a + j];
    }
    TrimNoLineTerminator(s);
  }

  lemma StripTagsNoLineTerminator(s: string)
    requires NoLineTerminator(s)
    ensures NoLineTerminator(StripTags(s))
  {
    var r := StripTags(s);
    forall k | 0 <= k < |r| ensures !IsLineTerminator(r[k]) {
      assert r[k] in r;
      var j :| 0 <= j < |s| && s[j] == r[k];
    }
  }

  /** `if (m && m[1]) v = m[1].trim().replace(/<[^>]*>/g, '').trim()`, the
      value staying `undefined` otherwise. */
  function HeaderValue(m: Motif, content: string): (r: Option<string>)
    ensures r.None? <==> Group(m, content).None? || Group(m, content).value == []
    ensures r.Some? ==> IsCleanHeader(r.value)
  {
    match Group(m, content)
    case None => None
    case Some(c) =>
      if c == [] then None
      else
        TrimNoLineTerminator(c);
        StripTagsNoLineTerminator(Trim(c));
        TrimKeepsClean(StripTags(Trim(c)));
        Some(Trim(StripTags(Trim(c))))
  }

  /** `parseForwardedMail(content)`. */
  function ParseForwardedMail(content: string): (h: ForwardedHeaders)
    ensures h.from.Some? ==> IsCleanHeader(h.from.value)
    ensures h.subject.Some? ==> IsCleanHeader(h.subject.value)
    ensures h.date.Some? ==> IsCleanHeader(h.date.value)
  {
    ForwardedHeaders(
      HeaderValue(FromPattern, content),
      HeaderValue(SubjectPattern, content),
      HeaderValue(DatePattern, content))
  }

  /** A field is present only when its label, a colon and a line break occur
      somewhere in the text: without them it stays `undefined`. */
  lemma AbsentLabelLeavesUndefined(m: Motif, content: string)
    requires forall i: nat, sp: Split :: !IsMatch(m, content, i, sp)
    ensures HeaderValue(m, content) == None
  {
  }

  /** A quoted sender line `From: Name <address>`: the value starts as
      `Name <address>`, and the tag stripping takes the address for a tag, so
      only the name is left. */
  lemma SenderLineKeepsOnlyName(name: string, addr: string, rest: string)
    requires name != [] && IsTrimmed(name) && '<' !in name && NoLineTerminator(name)
    requires '<' !in addr && '>' !in addr && NoLineTerminator(addr) && |addr| >= 3
    ensures ParseForwardedMail("From: " + name + " <" + addr + ">\n" + rest).from == Some(name)
  {
    var content := "From: " + name + " <" + addr + ">\n" + rest;
    SenderText(name, addr, rest, content);
    SenderGroup(name, addr, content);
    assert Group(FromPattern, content) == Some(name + " <" + addr + ">");
    NameAndAddress(name, addr);
    assert HeaderValue(FromPattern, content) == Some(name);
  }

  /** `Name <address>` cleaned as a header value is `Name`. */
  lemma NameAndAddress(name: string, addr: string)
    requires name != [] && IsTrimmed(name) && '<' !in name && '>' !in addr
    ensures Trim(StripTags(Trim(name + " <" + addr + ">"))) == name
  {
    var c := name + " <" + addr + ">";
    assert IsTrimmed(c) by {
      assert c[0] == name[0] && c[|c| - 1] == '>';
    }
    TrimTrimmed(c);
    assert c == name + (" " + ("<" + addr + ">"));
    StripAddress(addr);
    StripTagsAfterPlain(" ", "<" + addr + ">");
    assert " " + [] == " ";
    StripTagsAfterPlain(name, " " + ("<" + addr + ">"));
    TrimTrailingSpace(name, " ");
  }

  /** Where the parts of `From: Name <address>` and a line break sit in `content`. */
  predicate SenderShape(name: string, addr: string, content: string) {
    var p := 6 + |name|;
    var q := p + 2 + |addr|;
    && q + 2 <= |content|
    && content[..6] == "From: "
    && (forall k :: 0 <= k < |name| ==> content[6 + k] == name[k])
    && content[p] == ' ' && content[p + 1] == '<'
    && (forall k :: 0 <= k < |addr| ==> content[p + 2 + k] == addr[k])
    && content[q] == '>' && content[q + 1] == '\n'
  }

  lemma SenderText(name: string, addr: string, rest: string, content: string)
    requires content == "From: " + name + " <" + addr + ">\n" + rest
    ensures SenderShape(name, addr, content)
    ensures content[6..9 + |name| + |addr|] == name + " <" + addr + ">"
  {
  }

  /** Between the colon and the line break: no line terminator, and the only `<`
      is the one before the address, which does not start `<br>`. */
  lemma SenderChars(name: string, addr: string, content: string)
    requires name != [] && IsTrimmed(name) && '<' !in name && NoLineTerminator(name)
    requires '<' !in addr && '>' !in addr && NoLineTerminator(addr) && |addr| >= 3
    requires SenderShape(name, addr, content)
    ensures var p := 6 + |name|;
      && (forall k :: 6 <= k < p + 3 + |addr| ==> !IsLineTerminator(content[k]) && (content[k] == '<' ==> k == p + 1))
      && content[p + 4] != '>' && !IsSpace(content[6])
  {
    var p, q := 6 + |name|, 8 + |name| + |addr|;
    forall k | 6 <= k < q + 1
      ensures !IsLineTerminator(content[k]) && (content[k] == '<' ==> k == p + 1)
    {
      if k < p {
        assert content[k] == name[k - 6] && name[k - 6] in name;
      } else if p + 2 <= k < q {
        assert content[k] == addr[k - p - 2] && addr[k - p - 2] in addr;
      }
    }
    assert content[p + 4] == addr[2] && addr[2] in addr;
    assert content[6] == name[0];
  }

  lemma SenderGroup(name: string, addr: string, content: string)
    requires name != [] && IsTrimmed(name) && '<' !in name && NoLineTerminator(name)
    requires '<' !in addr && '>' !in addr && NoLineTerminator(addr) && |addr| >= 3
    requires SenderShape(name, addr, content)
    ensures Group(FromPattern, content) == Some(content[6..9 + |name| + |addr|])
  {
    var nl := 9 + |name| + |addr|;
    SenderChars(name, addr, content);
    SenderMatch(name, addr, content);
    FromLineValue(content, 7 + |name|, nl);
  }

  lemma SenderMatch(name: string, addr: string, content: string)
    requires SenderShape(name, addr, content)
    requires forall k :: 6 <= k < 9 + |name| + |addr| ==> !IsLineTerminator(content[k])
    ensures var q := 8 + |name| + |addr|;
      IsMatch(FromPattern, content, 0, Split(1, 4, 4, 4, 4, 4, 5, 6, q + 1, q + 1))
  {
    var q := 8 + |name| + |addr|;
    assert LitAt(content, 0, "From") by {
      assert forall k :: 0 <= k < 4 ==> content[k] == "From"[k];
    }
    assert LitAt(content, 4, ":") by { assert content[4] == ':'; }
    assert IsSpace(content[5]);
    assert NoBreakRun(content, 6, q + 1);
    assert LitAt(content, q + 1, "\n");
  }

  /** Text that starts `From: ` and a value up to a line break at `nl`, where
      the only `<` (at `lt`) does not start `<br>`: the sender pattern captures
      exactly that value. */
  lemma FromLineValue(content: string, lt: nat, nl: nat)
    requires 6 < nl < |content| && content[..6] == "From: " && !IsSpace(content[6])
    requires forall k :: 6 <= k < nl ==> !IsLineTerminator(content[k]) && (content[k] == '<' ==> k == lt)
    requires lt + 3 < nl && content[lt + 3] != '>'
    requires IsMatch(FromPattern, content, 0, Split(1, 4, 4, 4, 4, 4, 5, 6, nl, nl))
    ensures Group(FromPattern, content) == Some(content[6..nl])
  {
    var sp := Split(1, 4, 4, 4, 4, 4, 5, 6, nl, nl);
    forall j: nat, b: Split | IsMatch(FromPattern, content, j, b) && Preferred(j, b, 0, sp)
      ensures b.cs == sp.cs && b.ce == sp.ce
    {
      FromValueStart(content, b);
      BreakAtFirst(content, b.ce);
    }
    PatternsWellFormed();
    PreferredValue(FromPattern, content, 0, sp);
  }

  /** A match at the start of such text uses the `From` label, and its value
      starts right after the space. */
  lemma FromValueStart(content: string, b: Split)
    requires 6 < |content| && content[..6] == "From: " && !IsSpace(content[6])
    requires IsMatch(FromPattern, content, 0, b) && (b.alt == 0 || b.cs >= 6)
    ensures b.alt == 1 && b.cs == 6
  {
    assert content[0] == 'F' && content[4] == ':';
    assert !SameIgnoringCase(content[0 + 0], "Dari"[0]);
    assert !LitAt(content, 0, "Dari");
    assert b.g == 5;
  }
}
