/** The `email` handler without its I/O: choosing the sender, subject and date
    shown, and laying out the chat message. */
module Notification {
  import opened Options
  import opened Markdown
  import opened Transaction
  import opened Forwarded

  /** `email.from` as the MIME decoder gives it. */
  datatype Address = Address(name: string, address: string)

  /** The decoded message, as far as the handler reads it; `date` is there to show it is never read. */
  datatype Email = Email(text: Option<string>, html: Option<string>, subject: Option<string>,
                         from: Option<Address>, date: Option<string>)

  const NoSubject: string := "(No Subject)"
  const UnknownSender: string := "(Unknown Sender)"
  const MailIcon: string := "\U{1F4E7}"

  /** A JavaScript string-or-undefined that is truthy: present and not empty. */
  predicate Truthy(a: Option<string>) {
    a.Some? && a.value != []
  }

  /** JavaScript `a || b` for a string-or-undefined `a` and a string `b`. */
  function OrElse(a: Option<string>, b: string): string {
    if Truthy(a) then a.value else b
  }

  /** `forwarded.subject || email.subject || '(No Subject)'`. */
  function ResolveSubject(forwarded: Option<string>, live: Option<string>): (r: string)
    ensures r != []
    ensures Truthy(forwarded) ==> r == forwarded.value
    ensures !Truthy(forwarded) && Truthy(live) ==> r == live.value
    ensures !Truthy(forwarded) && !Truthy(live) ==> r == NoSubject
  {
    OrElse(forwarded, OrElse(live, NoSubject))
  }

  /** `forwarded.from || (email.from ? `${name} <${address}>` : '(Unknown Sender)')`. */
  function ResolveSender(forwarded: Option<string>, live: Option<Address>): (r: string)
    ensures r != []
    ensures Truthy(forwarded) ==> r == forwarded.value
    ensures !Truthy(forwarded) && live.Some? ==> r == live.value.name + " <" + live.value.address + ">"
    ensures !Truthy(forwarded) && live.None? ==> r == UnknownSender
  {
    OrElse(forwarded, match live
                      case Some(a) => a.name + " <" + a.address + ">"
                      case None => UnknownSender)
  }

  /** `forwarded.date ? forwarded.date : ''`: only a forwarded date is ever shown. */
  function ResolveDate(forwarded: Option<string>): (r: string)
    ensures r != [] <==> Truthy(forwarded)
    ensures r != [] ==> r == forwarded.value
  {
    if Truthy(forwarded) then forwarded.value else []
  }

  /** The message text, built as the handler builds it: the header and the
      subject line, then `+=` of the date line only for a non-empty date, then
      `+=` of the transaction block. The sender goes into the header without
      escaping; every other value is escaped. */
  function Compose(forwarded: ForwardedHeaders, liveSubject: Option<string>, liveFrom: Option<Address>,
                   details: TransactionDetails): (msg: string)
    ensures msg == JoinLines(Lines(forwarded, liveSubject, liveFrom, details))
  {
    var date := ResolveDate(forwarded.date);
    var header := MailIcon + " *" + ResolveSender(forwarded.from, liveFrom) + "*";
    var subjectLine := "*Subject:* " + EscapeMarkdown(ResolveSubject(forwarded.subject, liveSubject));
    var dateLine := "*Date:* " + EscapeMarkdown(date);
    var penerimaLine := "*Penerima:* " + EscapeMarkdown(details.penerima);
    var nominalLine := "*Nominal:* " + EscapeMarkdown(details.nominal);
    var noRefLine := "*No Ref:* " + EscapeMarkdown(details.noRef);
    var sumberDanaLine := "*Sumber Dana:* " + EscapeMarkdown(details.sumberDana);
    var head := header + "\n\n" + subjectLine + "\n";
    var dated := if date != [] then head + (dateLine + "\n") else head;
    var block := "\n" + "*Detail Transaksi:*" + "\n" + penerimaLine + "\n" + nominalLine + "\n"
                 + noRefLine + "\n" + sumberDanaLine;
    JoinTransactionBlock(penerimaLine, nominalLine, noRefLine, sumberDanaLine);
    var blockLines := ["", "*Detail Transaksi:*", penerimaLine, nominalLine, noRefLine, sumberDanaLine];
    var msg := dated + block;
    if date != [] then
      JoinDated(header, subjectLine, dateLine, blockLines);
      msg
    else
      assert Lines(forwarded, liveSubject, liveFrom, details) == [header, "", subjectLine] + blockLines;
      JoinUndated(header, subjectLine, blockLines);
      msg
  }

  /** Lines joined with `\n` between them. */
  function JoinLines(lines: seq<string>): string {
    if |lines| == 0 then []
    else if |lines| == 1 then lines[0]
    else lines[0] + "\n" + JoinLines(lines[1..])
  }

  /** The message as a list of lines, in the order the handler writes them. */
  function Lines(forwarded: ForwardedHeaders, liveSubject: Option<string>, liveFrom: Option<Address>,
                 details: TransactionDetails): seq<string>
  {
    var date := ResolveDate(forwarded.date);
    [MailIcon + " *" + ResolveSender(forwarded.from, liveFrom) + "*",
     "",
     "*Subject:* " + EscapeMarkdown(ResolveSubject(forwarded.subject, liveSubject))]
    + (if date != [] then ["*Date:* " + EscapeMarkdown(date)] else [])
    + ["", "*Detail Transaksi:*",
       "*Penerima:* " + EscapeMarkdown(details.penerima),
       "*Nominal:* " + EscapeMarkdown(details.nominal),
       "*No Ref:* " + EscapeMarkdown(details.noRef),
       "*Sumber Dana:* " + EscapeMarkdown(details.sumberDana)]
  }

  lemma JoinLinesCons(x: string, rest: seq<string>)
    requires rest != []
    ensures JoinLines([x] + rest) == x + "\n" + JoinLines(rest)
  {
    assert ([x] + rest)[1..] == rest;
  }

  lemma JoinTransactionBlock(p: string, n: string, r: string, d: string)
    ensures JoinLines(["", "*Detail Transaksi:*", p, n, r, d])
         == "\n" + "*Detail Transaksi:*" + "\n" + p + "\n" + n + "\n" + r + "\n" + d
  {
    var title := "*Detail Transaksi:*";
    JoinLinesCons(r, [d]);
    assert [n, r, d] == [n] + [r, d];
    JoinLinesCons(n, [r, d]);
    assert [p, n, r, d] == [p] + [n, r, d];
    JoinLinesCons(p, [n, r, d]);
    assert [title, p, n, r, d] == [title] + [p, n, r, d];
    JoinLinesCons(title, [p, n, r, d]);
    assert ["", title, p, n, r, d] == [""] + [title, p, n, r, d];
    JoinLinesCons("", [title, p, n, r, d]);
  }

  /** Joining a header, a blank line and a subject line in front of more lines. */
  lemma JoinHead(header: string, subjectLine: string, rest: seq<string>)
    requires rest != []
    ensures JoinLines([header, "", subjectLine] + rest) == header + "\n\n" + subjectLine + "\n" + JoinLines(rest)
  {
    JoinLinesCons(subjectLine, rest);
    assert [""] + ([subjectLine] + rest) == ["", subjectLine] + rest;
    JoinLinesCons("", [subjectLine] + rest);
    assert [header] + (["", subjectLine] + rest) == [header, "", subjectLine] + rest;
    JoinLinesCons(header, ["", subjectLine] + rest);
  }

  lemma SeqAssoc(a: string, b: string, c: string)
    ensures a + (b + c) == (a + b) + c
  {
  }

  /** Without a date, the transaction block follows the subject line. */
  lemma JoinUndated(header: string, subjectLine: string, block: seq<string>)
    requires block != []
    ensures JoinLines([header, "", subjectLine] + block)
         == header + "\n\n" + subjectLine + "\n" + JoinLines(block)
  {
    JoinHead(header, subjectLine, block);
  }

  /** With a date, its line sits between the subject line and the transaction block. */
  lemma JoinDated(header: string, subjectLine: string, dateLine: string, block: seq<string>)
    requires block != []
    ensures JoinLines([header, "", subjectLine] + [dateLine] + block)
         == (header + "\n\n" + subjectLine + "\n" + (dateLine + "\n")) + JoinLines(block)
  {
    var h, j := header + "\n\n" + subjectLine + "\n", JoinLines(block);
    assert [header, "", subjectLine] + [dateLine] + block == [header, "", subjectLine] + ([dateLine] + block);
    JoinHead(header, subjectLine, [dateLine] + block);
    JoinLinesCons(dateLine, block);
    SeqAssoc(h, dateLine + "\n", j);
  }

  /** A labelled line: the label, then the value with every special character
      escaped, which unescaping gives back. */
  predicate ShowsValue(line: string, prefix: string, v: string) {
    && |prefix| <= |line| && line[..|prefix|] == prefix
    && AllSpecialEscaped(line[|prefix|..])
    && Unescape(line[|prefix|..]) == v
  }

  lemma LabelledLine(prefix: string, v: string)
    ensures ShowsValue(prefix + EscapeMarkdown(v), prefix, v)
  {
    var line := prefix + EscapeMarkdown(v);
    assert line[|prefix|..] == EscapeMarkdown(v);
    UnescapeEscape(v);
  }

  /** The layout of the message: the sender unescaped in the bold header, a blank
      line, the subject, a date line exactly when the forwarded block has a
      non-empty date, a blank line, the title, and the four transaction fields;
      every value but the sender is shown with its special characters escaped,
      and can be read back. */
  lemma MessageLayout(forwarded: ForwardedHeaders, liveSubject: Option<string>, liveFrom: Option<Address>,
                      details: TransactionDetails)
    ensures var lines := Lines(forwarded, liveSubject, liveFrom, details);
      var n := |lines|;
      && n == (if Truthy(forwarded.date) then 10 else 9)
      && lines[0] == MailIcon + " *" + ResolveSender(forwarded.from, liveFrom) + "*"
      && lines[1] == ""
      && ShowsValue(lines[2], "*Subject:* ", ResolveSubject(forwarded.subject, liveSubject))
      && (Truthy(forwarded.date) ==> ShowsValue(lines[3], "*Date:* ", forwarded.date.value))
      && lines[n - 6] == "" && lines[n - 5] == "*Detail Transaksi:*"
      && ShowsValue(lines[n - 4], "*Penerima:* ", details.penerima)
      && ShowsValue(lines[n - 3], "*Nominal:* ", details.nominal)
      && ShowsValue(lines[n - 2], "*No Ref:* ", details.noRef)
      && ShowsValue(lines[n - 1], "*Sumber Dana:* ", details.sumberDana)
  {
    LabelledLine("*Subject:* ", ResolveSubject(forwarded.subject, liveSubject));
    LabelledLine("*Date:* ", ResolveDate(forwarded.date));
    LabelledLine("*Penerima:* ", details.penerima);
    LabelledLine("*Nominal:* ", details.nominal);
    LabelledLine("*No Ref:* ", details.noRef);
    LabelledLine("*Sumber Dana:* ", details.sumberDana);
  }

  /** No line other than the date line starts with the date label, so the
      message shows a date exactly when the forwarded block has a non-empty one. */
  lemma DateLineIffForwardedDate(forwarded: ForwardedHeaders, liveSubject: Option<string>, liveFrom: Option<Address>,
                                 details: TransactionDetails)
    ensures var lines := Lines(forwarded, liveSubject, liveFrom, details);
      (exists k :: 0 <= k < |lines| && IsDateLine(lines[k])) <==> Truthy(forwarded.date)
  {
    var lines := Lines(forwarded, liveSubject, liveFrom, details);
    MessageLayout(forwarded, liveSubject, liveFrom, details);
    if Truthy(forwarded.date) {
      assert IsDateLine(lines[3]);
    } else {
      assert !IsDateLine(lines[0]) by { assert lines[0][0] != '*'; }
      OtherLine("*Subject:* ", EscapeMarkdown(ResolveSubject(forwarded.subject, liveSubject)));
      OtherLine("*Detail Transaksi:*", []);
      OtherLine("*Penerima:* ", EscapeMarkdown(details.penerima));
      OtherLine("*Nominal:* ", EscapeMarkdown(details.nominal));
      OtherLine("*No Ref:* ", EscapeMarkdown(details.noRef));
      OtherLine("*Sumber Dana:* ", EscapeMarkdown(details.sumberDana));
      assert "*Detail Transaksi:*" + [] == "*Detail Transaksi:*";
    }
  }

  lemma OtherLine(prefix: string, v: string)
    requires |prefix| >= 3 && prefix[2] != 'a'
    ensures !IsDateLine(prefix + v)
  {
    if |prefix + v| >= 8 {
      assert (prefix + v)[..8][2] == prefix[2];
    }
  }

  /** A line starting with the date label `*Date:* `. */
  predicate IsDateLine(line: string) {
    |line| >= 8 && line[..8] == "*Date:* "
  }

  /** The body the forwarded header block is read from: `email.text || email.html || ''`. */
  function ForwardedSource(email: Email): (body: string)
    ensures Truthy(email.text) ==> body == email.text.value
    ensures !Truthy(email.text) && Truthy(email.html) ==> body == email.html.value
    ensures !Truthy(email.text) && !Truthy(email.html) ==> body == []
  {
    OrElse(email.text, OrElse(email.html, []))
  }

  /** The body the transaction is read from: `email.html || email.text || ''`,
      the other preference from the forwarded block's. */
  function DetailsSource(email: Email): (body: string)
    ensures Truthy(email.html) ==> body == email.html.value
    ensures !Truthy(email.html) && Truthy(email.text) ==> body == email.text.value
    ensures !Truthy(email.html) && !Truthy(email.text) ==> body == []
  {
    OrElse(email.html, OrElse(email.text, []))
  }

  /** The handler without I/O: the message is the line list built from the
      forwarded headers of the text body (or the HTML one) and the transaction
      of the HTML body (or the text one). */
  function Handle(email: Email): (msg: string)
    ensures msg == JoinLines(Lines(ParseForwardedMail(ForwardedSource(email)), email.subject, email.from,
                                   ParseTransactionDetails(DetailsSource(email))))
  {
    var forwarded := ParseForwardedMail(ForwardedSource(email));
    var details := ParseTransactionDetails(DetailsSource(email));
    Compose(forwarded, email.subject, email.from, details)
  }

  /** With both bodies present, the header block is read from the text body and
      the transaction from the HTML body. */
  lemma BothBodiesSplit(email: Email)
    requires Truthy(email.text) && Truthy(email.html)
    ensures Handle(email) == JoinLines(Lines(ParseForwardedMail(email.text.value), email.subject, email.from,
                                             ParseTransactionDetails(email.html.value)))
  {
  }

  /** The date header of the incoming message is never shown: changing it
      leaves the message unchanged. */
  lemma LiveDateNeverShown(email: Email, d: Option<string>)
    ensures Handle(email.(date := d)) == Handle(email)
  {
  }
}
