/** Escaping for the legacy Markdown parse mode of the chat API: every `_`, `*`,
    backquote and `[` gets a backslash in front of it, everything else is kept. */
module Markdown {

  /** The characters that open emphasis, code or a link in legacy Markdown. */
  predicate IsMarkdownSpecial(c: char) {
    c == '_' || c == '*' || c == '`' || c == '['
  }

  /** How many characters of `s` need an escape. */
  function CountSpecial(s: string): nat {
    if s == [] then 0 else (if IsMarkdownSpecial(s[0]) then 1 else 0) + CountSpecial(s[1..])
  }

  predicate NoSpecial(s: string) {
    forall k :: 0 <= k < |s| ==> !IsMarkdownSpecial(s[k])
  }

  /** A special character of `r` is escaped when a backslash stands right before it. */
  predicate AllSpecialEscaped(r: string) {
    forall k :: 0 <= k < |r| && IsMarkdownSpecial(r[k]) ==> 0 < k && r[k - 1] == '\\'
  }

  /** `escapeMarkdown`: a global replacement of `[_*`\[]` by a backslash and the character. */
  function EscapeMarkdown(s: string): (r: string)
    ensures |r| == |s| + CountSpecial(s)
    ensures AllSpecialEscaped(r)
    ensures r == [] || !IsMarkdownSpecial(r[0])
  {
    if s == [] then []
    else
      var rest := EscapeMarkdown(s[1..]);
      var head := if IsMarkdownSpecial(s[0]) then ['\\', s[0]] else [s[0]];
      assert forall k :: 1 <= k < |rest| && IsMarkdownSpecial(rest[k]) ==> rest[k - 1] == '\\';
      head + rest
  }

  /** Removes each backslash that stands directly before a special character. */
  function Unescape(r: string): string {
    if |r| >= 2 && r[0] == '\\' && IsMarkdownSpecial(r[1]) then [r[1]] + Unescape(r[2..])
    else if r == [] then []
    else [r[0]] + Unescape(r[1..])
  }

  /** Escaping loses nothing: unescaping gives back the original text. */
  lemma {:induction false} UnescapeEscape(s: string)
    ensures Unescape(EscapeMarkdown(s)) == s
  {
    if s != [] {
      var rest := EscapeMarkdown(s[1..]);
      UnescapeEscape(s[1..]);
      if IsMarkdownSpecial(s[0]) {
        assert EscapeMarkdown(s) == ['\\', s[0]] + rest;
        assert (['\\', s[0]] + rest)[2..] == rest;
      } else {
        assert EscapeMarkdown(s) == [s[0]] + rest;
        assert ([s[0]] + rest)[1..] == rest;
        if |rest| > 0 {
          assert ([s[0]] + rest)[1] == rest[0];
        }
      }
    }
  }

  /** Text without special characters passes through unchanged. */
  lemma {:induction false} EscapePlain(s: string)
    requires NoSpecial(s)
    ensures EscapeMarkdown(s) == s
  {
    if s != [] {
      EscapePlain(s[1..]);
    }
  }

  /** Escaping is the identity exactly on text without special characters. */
  lemma EscapeIdentityIff(s: string)
    ensures EscapeMarkdown(s) == s <==> NoSpecial(s)
  {
    if NoSpecial(s) {
      EscapePlain(s);
    } else {
      SpecialCounted(s);
    }
  }

  /** A special character somewhere is counted. */
  lemma {:induction false} SpecialCounted(s: string)
    requires !NoSpecial(s)
    ensures CountSpecial(s) > 0
  {
    if !IsMarkdownSpecial(s[0]) {
      var k :| 0 <= k < |s| && IsMarkdownSpecial(s[k]);
      assert s[1..][k - 1] == s[k];
      SpecialCounted(s[1..]);
    }
  }

  /** Escaping only adds backslashes: any other character occurs in the output exactly when it occurs in the input. */
  lemma {:induction false} EscapeKeepsCharacters(s: string, c: char)
    requires c != '\\'
    ensures c in EscapeMarkdown(s) <==> c in s
  {
    if s != [] {
      EscapeKeepsCharacters(s[1..], c);
      assert s == [s[0]] + s[1..];
    }
  }
}
