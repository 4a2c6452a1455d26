/** Concrete exchanges: the replies and capability lists of a session with a mail
    server, and what the client decodes from them and sends in turn.

    Each example keeps the facts about its string literals (`*Parts`, `*Words`,
    `*Tokens`, `*Facts` and the like) in a small lemma of its own. These lemmas state
    nothing about the client; they only compute. The verifier unfolds functions
    applied to string literals eagerly, so keeping each batch of such facts under a
    proof obligation of its own keeps the examples' proofs small. */
module Scenarios {
  import opened Js
  import opened Errors
  import opened Capabilities
  import opened Replies
  import opened Commands
  import opened Client

  /** A capability that is a single word is advertised under that word. */
  lemma Advertised(extensions: seq<string>, i: nat)
    requires i < |extensions| && extensions[i] != "" && ' ' !in extensions[i]
    ensures HasExtension(extensions, extensions[i])
  {
    FirstTokenOf(extensions[i], "");
  }

  /** Without ENHANCEDSTATUSCODES every line's text is the line from its fifth character. */
  lemma PlainTexts(lines: seq<string>, texts: seq<string>)
    requires |lines| == |texts|
    requires forall i :: 0 <= i < |lines| ==> |lines[i]| >= 4 && lines[i][4..] == texts[i]
    ensures ReplyTexts(lines, []) == texts
  {
  }

  /** Literal facts for EnhancedReplyExample: how its line is put together. */
  lemma EnhancedReplyParts()
    ensures EnhancedLine("555", ' ', "5.5.5", "Error") == "555 5.5.5 Error"
    ensures NoSpace("5.5.5") && OnOneLine("Error")
  {
  }

  /** "555 5.5.5 Error" carries the enhanced code 5.5.5 and the text "Error" once the
      server advertised ENHANCEDSTATUSCODES ... */
  lemma EnhancedReplyExample(extensions: seq<string>)
    requires HasExtension(extensions, EnhancedStatusCodes)
    ensures ParseEnhancedReplyCode("555 5.5.5 Error", extensions) == Some("5.5.5")
    ensures ParseReplyText("555 5.5.5 Error", extensions) == Some("Error")
  {
    EnhancedReplyParts();
    EnhancedLineDecodes("555", ' ', "5.5.5", "Error", extensions);
  }

  /** ... and before that no enhanced code, and a text that still holds it. */
  lemma PlainReplyExample()
    ensures ParseEnhancedReplyCode("555 5.5.5 Error", []) == None
    ensures ParseReplyText("555 5.5.5 Error", []) == Some("5.5.5 Error")
  {
  }

  /** The capability list of a server that advertised only ENHANCEDSTATUSCODES has it. */
  lemma EnhancedAdvertised()
    ensures HasExtension([EnhancedStatusCodes], EnhancedStatusCodes)
  {
    Advertised([EnhancedStatusCodes], 0);
  }

  /** Two words with no space in them, one space apart, are single-spaced. */
  lemma {:induction false} WordsSingleSpaced(w2: string, w3: string)
    requires NoSpace(w2) && NoSpace(w3)
    ensures SingleSpaced(w2 + " " + w3)
  {
    var s := w2 + " " + w3;
    forall i, j | 0 <= i < |s| && 0 <= j < |s| && j == i + 1
      ensures !(IsSpace(s[i]) && IsSpace(s[j]))
    {
      if i < |w2| {
        assert s[i] == w2[i];
      } else {
        assert s[j] == w3[j - |w2| - 1];
      }
    }
  }

  /** The message of a two-line reply whose first text holds a run of spaces between two
      words: the three words, one space apart. */
  lemma {:induction false} TwoLineMessage(first: string, last: string, w1: string, run: string, w2: string, w3: string)
    requires |first| >= 4 && |last| >= 4 && first[4..] == w1 + run + w2 && last[4..] == w3
    requires NoSpace(w1) && AllSpaces(run) && |run| >= 2 && w2 != [] && NoSpace(w2) && NoSpace(w3)
    ensures ReplyMessage([first, last], []) == w1 + " " + w2 + " " + w3
  {
    PlainTexts([first, last], [w1 + run + w2, w3]);
    JoinPair(w1 + run + w2, w3);
    assert w1 + run + w2 + " " + w3 == w1 + run + (w2 + " " + w3);
    WordsSingleSpaced(w2, w3);
    assert (w2 + " " + w3)[0] == w2[0];
    CollapseRun(w1, run, w2 + " " + w3);
    assert w1 + " " + (w2 + " " + w3) == w1 + " " + w2 + " " + w3;
  }

  /** Two texts joined by a space. */
  lemma JoinPair(a: string, b: string)
    ensures Join([a, b], " ") == a + " " + b
  {
    assert [a, b][1..] == [b];
  }

  /** A refusal over two lines without ENHANCEDSTATUSCODES, the first holding a run of
      spaces between two words: the message keeps the three words, one space apart. */
  lemma TwoLineRefusal(code: string, w1: string, run: string, w2: string, w3: string)
    requires |code| == 3 && NoSpace(w1) && AllSpaces(run) && |run| >= 2
    requires w2 != [] && NoSpace(w2) && NoSpace(w3)
    ensures ResponseError([code + "-" + w1 + run + w2, code + " " + w3], []) ==
              SMTPResponseError(w1 + " " + w2 + " " + w3, code)
  {
    var first, last := code + "-" + w1 + run + w2, code + " " + w3;
    assert first[4..] == w1 + run + w2 && last[4..] == w3 && last[..3] == code;
    TwoLineMessage(first, last, w1, run, w2, w3);
  }

  /** Literal facts for RefusalMessageExample: its words, its run of spaces and its lines. */
  lemma RefusalParts()
    ensures NoSpace("foo") && AllSpaces("    ") && NoSpace("bar") && NoSpace("fin")
    ensures "500" + "-" + "foo" + "    " + "bar" == "500-foo    bar" && "500" + " " + "fin" == "500 fin"
    ensures "foo" + " " + "bar" + " " + "fin" == "foo bar fin"
  {
  }

  /** The refusal "500-foo    bar" / "500 fin" becomes the message "foo bar fin" with
      the code of the last line. */
  lemma RefusalMessageExample()
    ensures ResponseError(["500-foo    bar", "500 fin"], []) ==
              SMTPResponseError("foo bar fin", "500")
  {
    RefusalParts();
    TwoLineRefusal("500", "foo", "    ", "bar", "fin");
  }

  /** Literal facts for EhloTexts: the text of each capability line. */
  lemma EhloParts()
    ensures "250-8BITMIME"[4..] == "8BITMIME" && "250 STARTTLS"[4..] == "STARTTLS"
  {
  }

  /** The EHLO reply "250-foo" / "250-8BITMIME" / "250 STARTTLS" advertises 8BITMIME and
      STARTTLS, neither of which is known before it. */
  lemma EhloCapabilitiesExample()
    ensures ReplyTexts(["250-8BITMIME", "250 STARTTLS"], []) == ["8BITMIME", "STARTTLS"]
    ensures HasExtension(["8BITMIME", "STARTTLS"], "8BITMIME")
    ensures HasExtension(["8BITMIME", "STARTTLS"], "STARTTLS")
    ensures !HasExtension([], "8BITMIME") && !HasExtension([], "STARTTLS")
  {
    EhloTexts();
    EhloAdvertised();
  }

  /** The capabilities of the EHLO reply above are each advertised. */
  lemma EhloAdvertised()
    ensures HasExtension(["8BITMIME", "STARTTLS"], "8BITMIME")
    ensures HasExtension(["8BITMIME", "STARTTLS"], "STARTTLS")
  {
    EhloWords();
    Advertised(["8BITMIME", "STARTTLS"], 0);
    Advertised(["8BITMIME", "STARTTLS"], 1);
  }

  /** Literal facts for EhloAdvertised: each capability is one word. */
  lemma EhloWords()
    ensures ' ' !in "8BITMIME" && ' ' !in "STARTTLS"
  {
  }

  /** The texts of the EHLO reply's capability lines. */
  lemma EhloTexts()
    ensures ReplyTexts(["250-8BITMIME", "250 STARTTLS"], []) == ["8BITMIME", "STARTTLS"]
  {
    EhloParts();
    PlainTexts(["250-8BITMIME", "250 STARTTLS"], ["8BITMIME", "STARTTLS"]);
  }

  /** Names are compared case-sensitively. */
  lemma CaseSensitiveExample()
    ensures !HasExtension(["starttls"], "STARTTLS")
  {
    FirstTokenOf("starttls", "");
  }

  /** The empty name finds an empty capability, and `!!` turns that into false. */
  lemma EmptyNameExample()
    ensures FindCapability([""], "") == Some(0)
    ensures !HasExtension([""], "")
  {
    FirstTokenOfEmpty();
  }

  /** Literal facts for ReEhloText: how its line is put together. */
  lemma ReEhloParts()
    ensures EnhancedLine("250", '-', "SIZE", "1000") == "250-SIZE 1000"
    ensures NoSpace("SIZE") && OnOneLine("1000")
  {
  }

  /** A second EHLO after ENHANCEDSTATUSCODES was learned decodes its capability lines as
      enhanced replies: "250-SIZE 1000" is read as the capability "1000". */
  lemma ReEhloExample()
    ensures ReplyTexts(["250-SIZE 1000"], [EnhancedStatusCodes]) == ["1000"]
  {
    ReEhloText();
    SingleText("250-SIZE 1000", [EnhancedStatusCodes], "1000");
  }

  /** With ENHANCEDSTATUSCODES known, "250-SIZE 1000" decodes to the text "1000". */
  lemma ReEhloText()
    ensures ParseReplyText("250-SIZE 1000", [EnhancedStatusCodes]) == Some("1000")
  {
    EnhancedAdvertised();
    ReEhloParts();
    EnhancedLineDecodes("250", '-', "SIZE", "1000", [EnhancedStatusCodes]);
  }

  /** A one-line reply's texts are the text of that line. */
  lemma SingleText(line: string, extensions: seq<string>, text: string)
    requires ParseReplyText(line, extensions) == Some(text)
    ensures ReplyTexts([line], extensions) == [text]
  {
  }

  /** Literal fact for SizeParts: 10 in decimal. */
  lemma DecimalTen(n: int)
    requires n == 10
    ensures IntToDecimal(n) == "10"
  {
    assert NatToDecimal(n / 10) == "1";
  }

  /** Literal facts for SizeLimitExample: its capability and its message. */
  lemma SizeParts(n: int)
    requires n == 10
    ensures "SIZE " + IntToDecimal(n) == "SIZE 10"
    ensures SizeExceededMessage(n) == "Message size exceeds the allowable limit (10 bytes)"
  {
    DecimalTen(n);
  }

  /** "SIZE 10" sets a limit of 10 bytes; 100 bytes exceed it, with the message naming
      the limit. */
  lemma SizeLimitExample()
    ensures GetDataSizeLimit(["SIZE 10"]) == Int(10)
    ensures Exceeds(100, GetDataSizeLimit(["SIZE 10"]))
    ensures SizeExceededMessage(10) == "Message size exceeds the allowable limit (10 bytes)"
  {
    SizeParts(10);
    DataSizeLimitAdvertised(["SIZE 10"], 0, 10);
  }

  /** Literal facts for AuthMechanismsExample: how "AUTH login  PLAIN" splits and filters. */
  lemma AuthTokens()
    ensures Join(["AUTH", "login", "", "PLAIN"], [' ']) == "AUTH login  PLAIN"
    ensures NonEmpty(["login", "", "PLAIN"]) == ["login", "PLAIN"]
  {
  }

  /** Literal facts for AuthNames: each mechanism is one word, and its upper-case form. */
  lemma AuthWords()
    ensures NoSpace("login") && NoSpace("PLAIN")
    ensures ToUpper("login") == "LOGIN" && ToUpper("PLAIN") == "PLAIN"
  {
    assert UpperChar('l') == 'L' && UpperChar('o') == 'O' && UpperChar('g') == 'G';
    assert UpperChar('i') == 'I' && UpperChar('n') == 'N';
  }

  /** The mechanisms kept from "AUTH login  PLAIN", normalized. */
  lemma AuthNames()
    ensures Normalized(NonEmpty(["login", "PLAIN"])) == ["LOGIN", "PLAIN"]
  {
    AuthWords();
    TwoWordsNormalized("login", "PLAIN");
  }

  /** Two words are kept by the filter and only upper-cased. */
  lemma TwoWordsNormalized(a: string, b: string)
    requires a != "" && NoSpace(a) && b != "" && NoSpace(b)
    ensures Normalized(NonEmpty([a, b])) == [ToUpper(a), ToUpper(b)]
  {
    var words := [a, b];
    assert forall w :: w in words ==> w == a || w == b;
    NormalizedWords(words);
    assert |Normalized(NonEmpty(words))| == 2;
  }

  /** The mechanisms of "AUTH login  PLAIN": the empty token between the two spaces is
      dropped and each name upper-cased. */
  lemma AuthMechanismsExample()
    ensures GetAuthMechanisms(["AUTH login  PLAIN"]) == ["LOGIN", "PLAIN"]
  {
    var parts := ["AUTH", "login", "", "PLAIN"];
    AuthTokens();
    SplitJoin(parts, ' ');
    assert FindCapability(["AUTH login  PLAIN"], "AUTH") == Some(0);
    AuthMechanismsAfterAuth(["AUTH login  PLAIN"], 0);
    assert parts[1..] == ["login", "", "PLAIN"];
    AuthNames();
  }

  /** The body of "bar" ends with the terminating dot line; of the two lines that begin
      with `.` in ".a\n.b" only the first is doubled. */
  lemma DataBodyExample()
    ensures DataBody("bar") == "bar\r\n.\r\n"
    ensures DataBody(".a\n.b") == "..a\n.b\r\n.\r\n"
  {
    BarBody("bar");
    TwoDotLinesBody(".a\n.b");
  }

  /** Literal facts for DataBodyExample: ".a\n.b" has its first dot line at the start. */
  lemma TwoDotLinesBody(source: string)
    requires source == ".a\n.b"
    ensures DataBody(source) == "..a\n.b\r\n.\r\n"
  {
    assert FirstDotLine(source) == Some(0);
  }

  /** Literal facts for HostnameExample: which names hold a dot, and the bracketed address. */
  lemma HostnameDots()
    ensures '.' in "mx.example.com" && '.' !in "localhost" && '.' in "10.0.0.1"
    ensures "[" + "10.0.0.1" + "]" == "[10.0.0.1]"
  {
    assert "mx.example.com"[2] == '.';
    assert "10.0.0.1"[2] == '.';
  }

  /** 10.0.0.1 is a dotted quad. */
  lemma AddressIsDottedQuad()
    ensures IsDottedQuad("10.0.0.1")
  {
    assert IsOctet("10") && IsOctet("0") && IsOctet("1");
    DottedQuadOf("10", "0", "0", "1");
    assert "10" + "." + "0" + "." + "0" + "." + "1" == "10.0.0.1";
  }

  /** mx.example.com is not: it splits into three parts. */
  lemma NameIsNotDottedQuad()
    ensures !IsDottedQuad("mx.example.com")
  {
    assert Join(["mx", "example", "com"], ".") == "mx.example.com";
    SplitJoin(["mx", "example", "com"], '.');
  }

  /** A host name without a dot becomes the loopback literal, a bare address is
      bracketed, and a dotted name is kept. */
  lemma HostnameExample()
    ensures GetHostname("localhost") == "[127.0.0.1]"
    ensures GetHostname("10.0.0.1") == "[10.0.0.1]"
    ensures GetHostname("mx.example.com") == "mx.example.com"
  {
    HostnameDots();
    AddressIsDottedQuad();
    NameIsNotDottedQuad();
  }

  /** Literal facts for EhloSessionFacts and LoginServerParts: the codes of the replies and the capability lines. */
  lemma EhloSessionParts()
    ensures ReplyCode("220 mx.test.com ESMTP") == "220"
    ensures ReplyCode("250 STARTTLS") == "250"
    ensures ["250-foo", "250-8BITMIME", "250 STARTTLS"][1..] == ["250-8BITMIME", "250 STARTTLS"]
  {
  }

  /** The replies of the session below and what each step decodes from them. */
  lemma EhloSessionFacts(greetingReply: seq<string>, ehloReply: seq<string>)
    requires greetingReply == ["220 mx.test.com ESMTP"]
    requires ehloReply == ["250-foo", "250-8BITMIME", "250 STARTTLS"]
    ensures Scripted([greetingReply, ehloReply])
    ensures Rest([greetingReply, ehloReply]) == [ehloReply]
    ensures Conclude(Next([greetingReply, ehloReply]), []) == Ok("220")
    ensures Conclude(Next([ehloReply]), []) == Ok("250")
    ensures EhloDecodable([ehloReply], [])
    ensures ReplyTexts([ehloReply][0][1..], []) == ["8BITMIME", "STARTTLS"]
  {
    EhloSessionParts();
    EhloTexts();
    assert ehloReply[1..] == ["250-8BITMIME", "250 STARTTLS"];
  }

  /** A session: the greeting, then EHLO answered with "250-foo" / "250-8BITMIME" /
      "250 STARTTLS". Neither capability is known before the EHLO; both are after it. */
  method EhloSession(hostname: string, systemHostname: string)
    returns (before: bool, greeting: Outcome<string>, ehlo: Outcome<string>, after: bool)
    ensures !before && greeting == Ok("220") && ehlo == Ok("250") && after
  {
    var greetingReply := ["220 mx.test.com ESMTP"];
    var ehloReply := ["250-foo", "250-8BITMIME", "250 STARTTLS"];
    var client := new SMTPClient([greetingReply, ehloReply], []);
    EhloSessionFacts(greetingReply, ehloReply);
    greeting := client.Connect(0);
    before := HasExtension(client.extensions, "8BITMIME") || HasExtension(client.extensions, "STARTTLS");
    ehlo := client.Ehlo(hostname, 0, systemHostname);
    EhloCapabilitiesExample();
    after := HasExtension(client.extensions, "8BITMIME") && HasExtension(client.extensions, "STARTTLS");
  }

  /** The replies of the session below and what each step decodes from them. */
  lemma DataSessionParts(greetingReply: seq<string>, dataReply: seq<string>, bodyReply: seq<string>)
    requires greetingReply == ["220 mx.test.com ESMTP"] && dataReply == ["354 foo"] && bodyReply == ["250 foo"]
    ensures Scripted([greetingReply, dataReply, bodyReply])
    ensures Rest([greetingReply, dataReply, bodyReply]) == [dataReply, bodyReply]
    ensures Rest([dataReply, bodyReply]) == [bodyReply]
    ensures IsIntermediate(ReplyCode(dataReply[|dataReply| - 1]))
    ensures !Exceeds(0, GetDataSizeLimit([]))
  {
  }

  /** A final reply `250 foo` concludes the exchange with its code. */
  lemma Concluded250(bodyReply: seq<string>)
    requires bodyReply == ["250 foo"]
    ensures Conclude(Next([bodyReply]), []) == Ok("250")
  {
    assert ReplyCode(bodyReply[0]) == "250";
  }

  /** "bar" has no line starting with `.`, so its body is the text and the dot line. */
  lemma BarBody(source: string)
    requires source == "bar"
    ensures DataBody(source) == "bar\r\n.\r\n"
  {
    assert FirstDotLine(source) == None by {
      assert forall k :: 0 <= k < 3 ==> !IsDotLine(source, k);
    }
  }

  /** A session that sends the message "bar": DATA gets 354, the body and its final dot
      line get 250. Without a SIZE capability a size of 0 is not refused. */
  method DataSession() returns (r: Outcome<string>, written: seq<ChannelCall>)
    ensures r == Ok("250")
    ensures written == [ChannelCall.Connect(0), Write("DATA\r\n", 0), Write("bar\r\n.\r\n", 0)]
  {
    var greetingReply, dataReply, bodyReply := ["220 mx.test.com ESMTP"], ["354 foo"], ["250 foo"];
    var client := new SMTPClient([greetingReply, dataReply, bodyReply], []);
    var source := "bar";
    DataSessionParts(greetingReply, dataReply, bodyReply);
    Concluded250(bodyReply);
    BarBody(source);
    var greeting := client.Connect(0);
    r := client.Data(source, 0, 0);
    written := client.calls;
  }

  /** Literal facts for LoginServerParts: the EHLO reply's code and text, and the refusal's code. */
  lemma LoginSessionParts()
    ensures ["250-mx.test.com", "250 AUTH LOGIN"][1..] == ["250 AUTH LOGIN"]
    ensures ReplyCode("250 AUTH LOGIN") == "250"
    ensures ReplyTexts(["250 AUTH LOGIN"], []) == ["AUTH LOGIN"]
    ensures ReplyCode("535 authentication failed") == "535"
  {
    PlainTexts(["250 AUTH LOGIN"], ["AUTH LOGIN"]);
  }

  /** Literal facts for LoginAdvertised: how "AUTH LOGIN" is put together. */
  lemma LoginTokens()
    ensures "AUTH " + Join(["LOGIN"], " ") == "AUTH LOGIN"
    ensures NoSpace("LOGIN") && ToUpper("LOGIN") == "LOGIN"
  {
  }

  /** A server that advertises "AUTH LOGIN" offers the LOGIN mechanism. */
  lemma LoginAdvertised()
    ensures GetAuthMechanisms(["AUTH LOGIN"]) == ["LOGIN"]
  {
    LoginTokens();
    assert forall m :: m in ["LOGIN"] ==> m != "" && NoSpace(m);
    AuthMechanismsAdvertised(["AUTH LOGIN"], 0, ["LOGIN"]);
  }

  /** The script of the session below: the user-name challenge, then a refusal. */
  lemma LoginRefused(extensions: seq<string>)
    ensures Scripted([[UsernameChallenge], ["535 authentication failed"]])
    ensures LoginWrites([[UsernameChallenge], ["535 authentication failed"]]) == 2
    ensures Consumed([[UsernameChallenge], ["535 authentication failed"]]) == 2
    ensures LoginOutcome([[UsernameChallenge], ["535 authentication failed"]], extensions) ==
              Fail(Protocol(ResponseError(["535 authentication failed"], extensions)))
  {
    var script := [[UsernameChallenge], ["535 authentication failed"]];
    assert script[0][0] == UsernameChallenge && script[1][0] != PasswordChallenge;
    LoginChallengesInOrder(script, extensions);
  }

  /** The refusal's error carries its code whatever capabilities are known. */
  lemma RefusalCode(extensions: seq<string>)
    ensures ResponseError(["535 authentication failed"], extensions).code == Textual("535")
  {
    assert ReplyCode("535 authentication failed") == "535";
  }

  /** The LOGIN writes made before the password: the command and the user name. */
  lemma LoginCallsBeforePassword(username: string, password: string, timeout: nat, base64: string -> string)
    ensures LoginCalls(username, password, timeout, base64)[..2] ==
              [Write(AuthLoginCommand, timeout), Write(TokenLine(base64(username)), timeout)]
  {
  }

  /** The replies of LoginServer and what each step decodes from them. */
  lemma LoginServerParts(greetingReply: seq<string>, ehloReply: seq<string>, script: seq<seq<string>>)
    requires greetingReply == ["220 mx.test.com ESMTP"]
    requires ehloReply == ["250-mx.test.com", "250 AUTH LOGIN"]
    requires script == [[UsernameChallenge], ["535 authentication failed"]]
    ensures Scripted([greetingReply, ehloReply] + script)
    ensures Rest([greetingReply, ehloReply] + script) == [ehloReply] + script
    ensures Conclude(Next([greetingReply, ehloReply] + script), []) == Ok("220")
    ensures Rest([ehloReply] + script) == script
    ensures Conclude(Next([ehloReply] + script), []) == Ok("250")
    ensures EhloDecodable([ehloReply] + script, [])
    ensures ReplyTexts(([ehloReply] + script)[0][1..], []) == ["AUTH LOGIN"]
  {
    EhloSessionParts();
    LoginSessionParts();
    assert ([ehloReply] + script)[0] == ehloReply && ehloReply[1..] == ["250 AUTH LOGIN"];
  }

  /** The start of the session below: the greeting, then EHLO answered with AUTH LOGIN. */
  method LoginServer(hostname: string, systemHostname: string) returns (client: SMTPClient)
    requires hostname != ""
    ensures fresh(client) && client.Valid()
    ensures client.extensions == ["AUTH LOGIN"]
    ensures client.replies == [[UsernameChallenge], ["535 authentication failed"]]
    ensures client.calls == [ChannelCall.Connect(0), Write(EhloCommand(hostname), 0)]
  {
    var script := [[UsernameChallenge], ["535 authentication failed"]];
    var ehloReply := ["250-mx.test.com", "250 AUTH LOGIN"];
    var greetingReply := ["220 mx.test.com ESMTP"];
    client := new SMTPClient([greetingReply, ehloReply] + script, []);
    LoginServerParts(greetingReply, ehloReply, script);
    var greeting := client.Connect(0);
    assert client.replies == [ehloReply] + script;
    var ehlo := client.Ehlo(hostname, 0, systemHostname);
  }

  /** What the LOGIN exchange of the session below meets: LOGIN is offered, two writes
      are made, and the outcome is the refusal's error. */
  lemma LoginSessionFacts(extensions: seq<string>, script: seq<seq<string>>,
                          username: string, password: string, base64: string -> string)
    requires extensions == ["AUTH LOGIN"]
    requires script == [[UsernameChallenge], ["535 authentication failed"]]
    ensures "LOGIN" in GetAuthMechanisms(extensions)
    ensures Scripted(script) && LoginWrites(script) == 2
    ensures LoginCalls(username, password, 0, base64)[..LoginWrites(script)] ==
              [Write(AuthLoginCommand, 0), Write(TokenLine(base64(username)), 0)]
    ensures var outcome := LoginOutcome(script, extensions);
            outcome.Fail? && outcome.failure.Protocol? && outcome.failure.error.code == Textual("535")
  {
    LoginAdvertised();
    LoginRefused(extensions);
    RefusalCode(extensions);
    LoginCallsBeforePassword(username, password, 0, base64);
  }

  /** A LOGIN exchange whose second reply is not the password challenge: the user name
      is written, the password never is, and the error carries the second reply's code. */
  method LoginSession(hostname: string, systemHostname: string, username: string, password: string, base64: string -> string)
    returns (r: Outcome<string>, written: seq<ChannelCall>)
    requires hostname != ""
    ensures r.Fail? && r.failure.Protocol? && r.failure.error.code == Textual("535")
    ensures written == [ChannelCall.Connect(0), Write(EhloCommand(hostname), 0),
                        Write(AuthLoginCommand, 0), Write(TokenLine(base64(username)), 0)]
  {
    var client := LoginServer(hostname, systemHostname);
    LoginSessionFacts(client.extensions, client.replies, username, password, base64);
    r := client.AuthLogin(username, password, 0, base64);
    written := client.calls;
  }
}
