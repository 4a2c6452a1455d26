/** Decoding of reply lines (section 4.2 of RFC 5321: a three-digit code, `-` or a
    space, then text), of the enhanced status codes of RFC 2034 / RFC 1893 that follow
    the code once the server advertised ENHANCEDSTATUSCODES, and the folding of a
    failed reply into an `SMTPResponseError`. */
module Replies {
  import opened Js
  import opened Errors
  import opened Capabilities

  const EnhancedStatusCodes := "ENHANCEDSTATUSCODES"

  /** The code the channel resolves an exchange with: the first three characters of the
      reply's last line (the channel's own `parseReplyCode` is not part of this model). */
  function ReplyCode(line: string): (code: string)
    ensures |code| <= 3 && |code| <= |line| && code == line[..|code|]
    ensures |line| >= 3 ==> |code| == 3
    ensures |line| < 3 ==> code == line
  {
    if |line| >= 3 then line[..3] else line
  }

  /** `code.charAt(0) === '2'`. */
  predicate IsPositive(code: string) {
    |code| > 0 && code[0] == '2'
  }

  /** `code.charAt(0) === '3'`. */
  predicate IsIntermediate(code: string) {
    |code| > 0 && code[0] == '3'
  }

  /** The code of a line is positive exactly when the line starts with '2' and
      intermediate exactly when it starts with '3', and never both. */
  lemma ReplyClass(line: string)
    ensures IsPositive(ReplyCode(line)) <==> |line| > 0 && line[0] == '2'
    ensures IsIntermediate(ReplyCode(line)) <==> |line| > 0 && line[0] == '3'
    ensures !(IsPositive(ReplyCode(line)) && IsIntermediate(ReplyCode(line)))
  {
  }

  /** Where `[\s]` first matches. */
  function FirstSpace(s: string): (at: Option<nat>)
    ensures at.Some? ==> at.value < |s| && IsSpace(s[at.value])
    ensures forall k :: 0 <= k < |s| && (at.None? || k < at.value) ==> !IsSpace(s[k])
  {
    if s == [] then None
    else if IsSpace(s[0]) then Some(0)
    else
      match FirstSpace(s[1..])
      case None => None
      case Some(k) => Some(k + 1)
  }

  /** No line terminator: what `.` matches, character by character. */
  predicate OnOneLine(s: string) {
    forall k :: 0 <= k < |s| ==> !IsLineTerminator(s[k])
  }

  /** What the greedy group `(.+)` takes: the longest prefix with no line terminator. */
  function LineRest(s: string): (r: string)
    ensures |r| <= |s| && r == s[..|r|]
    ensures OnOneLine(r)
    ensures |r| == |s| || IsLineTerminator(s[|r|])
  {
    if s != [] && !IsLineTerminator(s[0]) then [s[0]] + LineRest(s[1..]) else ""
  }

  /** `parseReplyText(line)`: without ENHANCEDSTATUSCODES, `line.substr(4)`; with it,
      `line.substr(4).split(/[\s](.+)?/, 2)[1]`, the text after the first `\s` character,
      kept verbatim, and `undefined` (None) when no text follows it. */
  function ParseReplyText(line: string, extensions: seq<string>): (text: Option<string>)
    ensures !HasExtension(extensions, EnhancedStatusCodes) ==> text == Some(Substr(line, 4))
    ensures HasExtension(extensions, EnhancedStatusCodes) && text.Some? ==>
              var body := Substr(line, 4);
              && FirstSpace(body).Some?
              && var from := FirstSpace(body).value + 1;
              && text.value != "" && OnOneLine(text.value)
              && from + |text.value| <= |body| && text.value == body[from..from + |text.value|]
              && (from + |text.value| == |body| || IsLineTerminator(body[from + |text.value|]))
    ensures HasExtension(extensions, EnhancedStatusCodes) && text.None? ==>
              var body := Substr(line, 4);
              || FirstSpace(body).None?
              || var from := FirstSpace(body).value + 1;
                 from == |body| || IsLineTerminator(body[from])
  {
    var text := Substr(line, 4);
    if !HasExtension(extensions, EnhancedStatusCodes) then Some(text)
    else
      match FirstSpace(text)
      case None => None
      case Some(at) =>
        var rest := LineRest(text[at + 1..]);
        if rest == "" then None else Some(rest)
  }

  /** `parseEnhancedReplyCode(line)`: with ENHANCEDSTATUSCODES, `line.substr(4)` up to the
      first space; without it, `null` (None). */
  function ParseEnhancedReplyCode(line: string, extensions: seq<string>): (enhanced: Option<string>)
    ensures !HasExtension(extensions, EnhancedStatusCodes) ==> enhanced == None
    ensures HasExtension(extensions, EnhancedStatusCodes) ==>
              var body := Substr(line, 4);
              && enhanced.Some? && ' ' !in enhanced.value
              && |enhanced.value| <= |body| && enhanced.value == body[..|enhanced.value|]
              && (|enhanced.value| == |body| || body[|enhanced.value|] == ' ')
  {
    if HasExtension(extensions, EnhancedStatusCodes) then Some(FirstToken(Substr(line, 4))) else None
  }

  /** A reply line as a server writes it with an enhanced status code. */
  function EnhancedLine(code: string, separator: char, enhanced: string, text: string): string {
    code + [separator] + enhanced + " " + text
  }

  /** Decoding a well-formed line gives back its parts: with ENHANCEDSTATUSCODES the
      enhanced code and the text; without it the enhanced code is None and the text
      still starts with the enhanced code. */
  lemma {:induction false} EnhancedLineDecodes(code: string, separator: char, enhanced: string, text: string, extensions: seq<string>)
    requires |code| == 3 && enhanced != [] && NoSpace(enhanced) && text != [] && OnOneLine(text)
    ensures ReplyCode(EnhancedLine(code, separator, enhanced, text)) == code
    ensures HasExtension(extensions, EnhancedStatusCodes) ==>
              ParseEnhancedReplyCode(EnhancedLine(code, separator, enhanced, text), extensions) == Some(enhanced) &&
              ParseReplyText(EnhancedLine(code, separator, enhanced, text), extensions) == Some(text)
    ensures !HasExtension(extensions, EnhancedStatusCodes) ==>
              ParseEnhancedReplyCode(EnhancedLine(code, separator, enhanced, text), extensions) == None &&
              ParseReplyText(EnhancedLine(code, separator, enhanced, text), extensions) == Some(enhanced + " " + text)
  {
    var line := EnhancedLine(code, separator, enhanced, text);
    var body := enhanced + " " + text;
    assert line == (code + [separator]) + body;
    assert line[..3] == code;
    assert Substr(line, 4) == body;
    assert ' ' !in enhanced by {
      forall k | 0 <= k < |enhanced| ensures enhanced[k] != ' ' {
        assert !IsSpace(enhanced[k]);
      }
    }
    FirstTokenOf(enhanced, text);
    FirstSpaceAfter(enhanced, text);
    assert body[|enhanced| + 1..] == text;
    LineRestOnOneLine(text);
  }

  lemma {:induction false} FirstSpaceAfter(word: string, rest: string)
    requires NoSpace(word)
    ensures FirstSpace(word + " " + rest) == Some(|word|)
  {
    var s := word + " " + rest;
    var at := FirstSpace(s);
    assert s[|word|] == ' ';
    assert forall k :: 0 <= k < |word| ==> s[k] == word[k];
  }

  lemma {:induction false} LineRestOnOneLine(s: string)
    requires OnOneLine(s)
    ensures LineRest(s) == s
  {
    if s != [] {
      LineRestOnOneLine(s[1..]);
    }
  }

  /** Every line's text, `undefined` written as "" (what `join` does with it). */
  function ReplyTexts(lines: seq<string>, extensions: seq<string>): (texts: seq<string>)
    ensures |texts| == |lines|
  {
    seq(|lines|, i requires 0 <= i < |lines| =>
      match ParseReplyText(lines[i], extensions)
      case None => ""
      case Some(text) => text)
  }

  /** Each line's text in its place: the decoded text, or "" where there is none. */
  lemma ReplyTextsDecoded(lines: seq<string>, extensions: seq<string>)
    ensures forall i :: 0 <= i < |lines| ==>
              var text := ParseReplyText(lines[i], extensions);
              && (text.Some? ==> ReplyTexts(lines, extensions)[i] == text.value)
              && (text.None? ==> ReplyTexts(lines, extensions)[i] == "")
  {
  }

  /** Every line decodes to a text (none is `undefined`). */
  predicate TextsDefined(lines: seq<string>, extensions: seq<string>) {
    forall i :: 0 <= i < |lines| ==> ParseReplyText(lines[i], extensions).Some?
  }

  function Concat(parts: seq<string>): string {
    if parts == [] then "" else parts[0] + Concat(parts[1..])
  }

  lemma {:induction false} NonSpacesJoin(parts: seq<string>)
    ensures NonSpaces(Join(parts, " ")) == NonSpaces(Concat(parts))
  {
    if |parts| == 1 {
      assert Concat(parts) == parts[0] + "";
      assert parts[0] + "" == parts[0];
    } else if |parts| > 1 {
      NonSpacesJoin(parts[1..]);
      NonSpacesAppend(parts[0] + " ", Join(parts[1..], " "));
      NonSpacesAppend(parts[0], " ");
      NonSpacesAppend(parts[0], Concat(parts[1..]));
      assert NonSpaces(" ") == "";
    }
  }

  /** The message of an error: the lines' texts joined by spaces, with every run of
      whitespace collapsed. It has no two whitespace characters in a row and keeps every
      other character of the texts, in order. */
  function ReplyMessage(lines: seq<string>, extensions: seq<string>): (message: string)
    ensures SingleSpaced(message)
    ensures NonSpaces(message) == NonSpaces(Concat(ReplyTexts(lines, extensions)))
  {
    NonSpacesJoin(ReplyTexts(lines, extensions));
    CollapseSpaceRunsSpec(Join(ReplyTexts(lines, extensions), " "));
    CollapseSpaceRuns(Join(ReplyTexts(lines, extensions), " "))
  }

  /** When every text begins and ends in a word, the message is the texts, each with its
      own whitespace runs collapsed, joined by single spaces: the joining space is never
      lost, so no two texts are fused. Texts that are already single-spaced come through
      unchanged. */
  lemma ReplyMessageSeparated(lines: seq<string>, extensions: seq<string>)
    requires forall t :: t in ReplyTexts(lines, extensions) ==> t != [] && IsTrimmed(t)
    ensures ReplyMessage(lines, extensions) == Join(CollapseEach(ReplyTexts(lines, extensions)), " ")
    ensures (forall t :: t in ReplyTexts(lines, extensions) ==> SingleSpaced(t)) ==>
              ReplyMessage(lines, extensions) == Join(ReplyTexts(lines, extensions), " ")
  {
    var texts := ReplyTexts(lines, extensions);
    CollapseJoin(texts);
    if forall t :: t in texts ==> SingleSpaced(t) {
      CollapseEachSingleSpaced(texts);
    }
  }

  /** `_createSMTPResponseError(lines)`: the code and the enhanced code of the last line,
      the message of all lines. */
  function ResponseError(lines: seq<string>, extensions: seq<string>): (e: ErrorRecord)
    requires |lines| > 0
    ensures e.name == ""
    ensures e.code == Textual(ReplyCode(lines[|lines| - 1]))
    ensures e.enhancedCode == ParseEnhancedReplyCode(lines[|lines| - 1], extensions)
    ensures e.message == ReplyMessage(lines, extensions)
  {
    var line := lines[|lines| - 1];
    SMTPResponseError(ReplyMessage(lines, extensions), ReplyCode(line), ParseEnhancedReplyCode(line, extensions))
  }
}
