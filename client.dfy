/** The `SMTPClient` class: one method per SMTP verb over a line channel. The channel
    is an oracle: every connect or write consumes the next scripted reply (the lines
    the server sends back, in order) and every TLS negotiation the next scripted
    outcome. An exhausted script stands for a channel that rejects (a timeout or a
    closed socket), which the verbs pass on unchanged. */
module Client {
  import opened Js
  import opened Errors
  import opened Capabilities
  import opened Replies
  import opened Commands

  /** A call the client makes on its channel, with the timeout it passes along. */
  datatype ChannelCall =
    | Connect(timeout: nat)
    | Write(command: string, timeout: nat)
    | NegotiateTLS(timeout: nat)

  /** Why a verb failed: the server refused (an `SMTPResponseError`), a local check
      failed before anything was sent (a plain `Error`), or the channel rejected. */
  datatype Failure = Protocol(error: ErrorRecord) | Local(message: string) | Channel

  datatype Outcome<T> = Ok(value: T) | Fail(failure: Failure)

  function Next<T>(queue: seq<T>): Option<T> {
    if queue == [] then None else Some(queue[0])
  }

  function Rest<T>(queue: seq<T>): seq<T> {
    if queue == [] then [] else queue[1..]
  }

  /** The shared ending of every verb: the code when it starts with '2', otherwise the
      error built from the reply's lines. */
  function Conclude(reply: Option<seq<string>>, extensions: seq<string>): (r: Outcome<string>)
    requires reply.Some? ==> |reply.value| > 0
    ensures reply.None? ==> r == Fail(Channel)
    ensures reply.Some? ==>
              var code := ReplyCode(reply.value[|reply.value| - 1]);
              && (r.Ok? <==> IsPositive(code))
              && (r.Ok? ==> r.value == code)
              && (r.Fail? ==> r == Fail(Protocol(ResponseError(reply.value, extensions))))
  {
    match reply
    case None => Fail(Channel)
    case Some(lines) =>
      var code := ReplyCode(lines[|lines| - 1]);
      if IsPositive(code) then Ok(code) else Fail(Protocol(ResponseError(lines, extensions)))
  }

  /** Whether `data` refuses the size locally: `sourceSize > sizeLimit`, false against NaN. */
  predicate Exceeds(sourceSize: int, limit: Number) {
    limit.Int? && sourceSize > limit.value
  }

  /** A successful EHLO reply decodes to capability texts (none is `undefined`). */
  predicate EhloDecodable(replies: seq<seq<string>>, extensions: seq<string>) {
    replies != [] && |replies[0]| > 0 && IsPositive(ReplyCode(replies[0][|replies[0]| - 1])) ==>
      TextsDefined(replies[0][1..], extensions)
  }

  /** The three writes of the LOGIN exchange, in the order they may be made. */
  function LoginCalls(username: string, password: string, timeout: nat, base64: string -> string): seq<ChannelCall> {
    [Write(AuthLoginCommand, timeout),
     Write(TokenLine(base64(username)), timeout),
     Write(TokenLine(base64(password)), timeout)]
  }

  predicate Scripted(script: seq<seq<string>>) {
    forall i :: 0 <= i < |script| ==> |script[i]| > 0
  }

  /** How many of the LOGIN writes are made: the user name follows only a first reply line
      of exactly `334 VXNlcm5hbWU6`, the password only one of exactly `334 UGFzc3dvcmQ6`. */
  function LoginWrites(script: seq<seq<string>>): (writes: nat)
    requires Scripted(script)
    ensures 1 <= writes <= 3
  {
    if script == [] || script[0][0] != UsernameChallenge then 1
    else if |script| == 1 || script[1][0] != PasswordChallenge then 2
    else 3
  }

  /** How many replies the LOGIN exchange takes from the script. */
  function Consumed(script: seq<seq<string>>): (taken: nat)
    requires Scripted(script)
    ensures taken <= |script| && taken <= LoginWrites(script)
  {
    if LoginWrites(script) < |script| then LoginWrites(script) else |script|
  }

  /** One LOGIN step's check: None to go on when the reply's FIRST line is exactly the
      expected challenge (its code is not looked at), otherwise the failure to stop with,
      built from this step's reply alone. */
  function Challenge(reply: Option<seq<string>>, expected: string, extensions: seq<string>): (stop: Option<Outcome<string>>)
    requires reply.Some? ==> |reply.value| > 0
    ensures reply.None? ==> stop == Some(Fail(Channel))
    ensures reply.Some? ==> (stop.None? <==> reply.value[0] == expected)
    ensures reply.Some? && stop.Some? ==> stop.value == Fail(Protocol(ResponseError(reply.value, extensions)))
  {
    match reply
    case None => Some(Fail(Channel))
    case Some(lines) =>
      if lines[0] == expected then None else Some(Fail(Protocol(ResponseError(lines, extensions))))
  }

  /** The result of the LOGIN exchange over a script of replies. */
  function LoginOutcome(script: seq<seq<string>>, extensions: seq<string>): Outcome<string>
    requires Scripted(script)
  {
    var first := Challenge(Next(script), UsernameChallenge, extensions);
    if first.Some? then first.value
    else
      var second := Challenge(Next(script[1..]), PasswordChallenge, extensions);
      if second.Some? then second.value
      else Conclude(Next(script[2..]), extensions)
  }

  /** The first one, two or three LOGIN writes appended to a call log. */
  lemma LoginCallsPrefixes(calls: seq<ChannelCall>, writes: seq<ChannelCall>)
    requires |writes| == 3
    ensures calls + writes[..1] == calls + [writes[0]]
    ensures calls + writes[..2] == calls + [writes[0]] + [writes[1]]
    ensures calls + writes[..3] == calls + [writes[0]] + [writes[1], writes[2]]
  {
  }

  /** The LOGIN outcome step by step: the first challenge, then the second, then the
      reply to the password, each taking one reply from the script. */
  lemma LoginSteps(script: seq<seq<string>>, extensions: seq<string>)
    requires Scripted(script)
    ensures var first := Challenge(Next(script), UsernameChallenge, extensions);
            first.Some? ==>
              LoginOutcome(script, extensions) == first.value && LoginWrites(script) == 1 &&
              script[Consumed(script)..] == Rest(script)
    ensures var first := Challenge(Next(script), UsernameChallenge, extensions);
            var second := Challenge(Next(Rest(script)), PasswordChallenge, extensions);
            first.None? && second.Some? ==>
              Rest(script) == script[1..] &&
              LoginOutcome(script, extensions) == second.value && LoginWrites(script) == 2 &&
              script[Consumed(script)..] == Rest(Rest(script))
    ensures var first := Challenge(Next(script), UsernameChallenge, extensions);
            var second := Challenge(Next(Rest(script)), PasswordChallenge, extensions);
            first.None? && second.None? ==>
              Rest(script) == script[1..] &&
              LoginOutcome(script, extensions) == Conclude(Next(Rest(Rest(script))), extensions) &&
              LoginWrites(script) == 3 && script[Consumed(script)..] == Rest(Rest(Rest(script)))
  {
    if script != [] && script[0][0] == UsernameChallenge && |script| > 1 {
      assert script[1..][1..] == script[2..];
    }
  }

  /** The LOGIN exchange succeeds only after both challenges came in order and the reply
      to the password is 2xx; a challenge that does not match stops the exchange with an
      error built from that step's reply alone, and nothing more is written. */
  lemma {:induction false} LoginChallengesInOrder(script: seq<seq<string>>, extensions: seq<string>)
    requires Scripted(script)
    ensures LoginWrites(script) == 3 <==>
              |script| >= 2 && script[0][0] == UsernameChallenge && script[1][0] == PasswordChallenge
    ensures LoginOutcome(script, extensions).Ok? ==>
              && LoginWrites(script) == 3 && |script| >= 3
              && LoginOutcome(script, extensions).value == ReplyCode(script[2][|script[2]| - 1])
              && IsPositive(LoginOutcome(script, extensions).value)
    ensures script != [] && script[0][0] != UsernameChallenge ==>
              LoginOutcome(script, extensions) == Fail(Protocol(ResponseError(script[0], extensions)))
    ensures |script| >= 2 && script[0][0] == UsernameChallenge && script[1][0] != PasswordChallenge ==>
              LoginOutcome(script, extensions) == Fail(Protocol(ResponseError(script[1], extensions)))
  {
    if |script| >= 2 {
      assert script[1..][0] == script[1];
    }
    if |script| >= 3 {
      assert script[2..][0] == script[2];
    }
  }

  /** The size check has no nonzero guard: without a SIZE capability the limit is 0, so
      any positive size is refused locally. */
  lemma SizeCheckWithoutSize(extensions: seq<string>, sourceSize: int)
    requires !HasExtension(extensions, "SIZE") && sourceSize > 0
    ensures Exceeds(sourceSize, GetDataSizeLimit(extensions))
  {
  }

  /** Against a limit read from "SIZE n", exactly the sizes above n are refused. */
  lemma SizeCheckAdvertised(extensions: seq<string>, i: nat, n: int, sourceSize: int)
    requires i < |extensions| && extensions[i] == "SIZE " + IntToDecimal(n)
    requires forall j :: 0 <= j < i ==> FirstToken(extensions[j]) != "SIZE"
    ensures Exceeds(sourceSize, GetDataSizeLimit(extensions)) <==> sourceSize > n
  {
    DataSizeLimitAdvertised(extensions, i, n);
  }

  /** A SIZE capability with no number makes the limit NaN, which no size exceeds, so
      `data` refuses no message for its size. */
  lemma SizeCheckWithoutNumber(extensions: seq<string>, i: nat, sourceSize: int)
    requires i < |extensions| && extensions[i] == "SIZE"
    requires forall j :: 0 <= j < i ==> FirstToken(extensions[j]) != "SIZE"
    ensures GetDataSizeLimit(extensions) == NaN
    ensures !Exceeds(sourceSize, GetDataSizeLimit(extensions))
  {
    FirstTokenOf("SIZE", "");
    assert FindCapability(extensions, "SIZE") == Some(i);
    SplitAppend("SIZE", "", ' ');
    assert "SIZE" + "" == "SIZE";
  }

  class SMTPClient {
    /** The capabilities the server advertised, one per EHLO reply line after the first. */
    var extensions: seq<string>
    /** Every call made on the channel, in order. */
    var calls: seq<ChannelCall>
    /** The replies the channel will deliver, the next one first. */
    var replies: seq<seq<string>>
    /** The outcomes of the next TLS negotiations. */
    var handshakes: seq<bool>

    /** Every reply has a line, and every command written ends with CRLF. */
    ghost predicate Valid()
      reads this
    {
      && (forall i :: 0 <= i < |replies| ==> |replies[i]| > 0)
      && (forall i :: 0 <= i < |calls| && calls[i].Write? ==> IsCrlfTerminated(calls[i].command))
    }

    constructor (replies: seq<seq<string>>, handshakes: seq<bool>)
      requires forall i :: 0 <= i < |replies| ==> |replies[i]| > 0
      ensures Valid()
      ensures extensions == [] && calls == []
      ensures this.replies == replies && this.handshakes == handshakes
    {
      extensions := [];
      calls := [];
      this.replies := replies;
      this.handshakes := handshakes;
    }

    /** One connect or write on the channel: the call is made and the next reply, with
        every line the handler collected, comes back. */
    method Exchange(call: ChannelCall) returns (reply: Option<seq<string>>)
      requires Valid()
      requires call.Connect? || (call.Write? && IsCrlfTerminated(call.command))
      modifies this
      ensures Valid()
      ensures calls == old(calls) + [call]
      ensures reply == Next(old(replies)) && replies == Rest(old(replies))
      ensures reply.Some? ==> |reply.value| > 0
      ensures extensions == old(extensions) && handshakes == old(handshakes)
    {
      calls := calls + [call];
      if replies == [] {
        reply := None;
      } else {
        reply := Some(replies[0]);
        replies := replies[1..];
      }
    }

    /** `negotiateTLS` on the channel. */
    method Negotiate(timeout: nat) returns (ok: bool)
      requires Valid()
      modifies this
      ensures Valid()
      ensures calls == old(calls) + [NegotiateTLS(timeout)]
      ensures ok == (Next(old(handshakes)) == Some(true)) && handshakes == Rest(old(handshakes))
      ensures extensions == old(extensions) && replies == old(replies)
    {
      calls := calls + [NegotiateTLS(timeout)];
      ok := handshakes != [] && handshakes[0];
      if handshakes != [] {
        handshakes := handshakes[1..];
      }
    }

    /** Writes one command and concludes on its reply. */
    method Command(command: string, timeout: nat) returns (r: Outcome<string>)
      requires Valid() && IsCrlfTerminated(command)
      modifies this
      ensures Valid()
      ensures calls == old(calls) + [Write(command, timeout)]
      ensures replies == Rest(old(replies)) && r == Conclude(Next(old(replies)), old(extensions))
      ensures extensions == old(extensions) && handshakes == old(handshakes)
    {
      var reply := Exchange(Write(command, timeout));
      r := Conclude(reply, extensions);
    }

    /** Writes one LOGIN step and checks the reply against the expected challenge. */
    method Expect(command: string, expected: string, timeout: nat) returns (stop: Option<Outcome<string>>)
      requires Valid() && IsCrlfTerminated(command)
      modifies this
      ensures Valid()
      ensures calls == old(calls) + [Write(command, timeout)]
      ensures replies == Rest(old(replies)) && stop == Challenge(Next(old(replies)), expected, old(extensions))
      ensures extensions == old(extensions) && handshakes == old(handshakes)
    {
      var reply := Exchange(Write(command, timeout));
      stop := Challenge(reply, expected, extensions);
    }

    /** `connect`: the server's greeting decides. */
    method Connect(timeout: nat) returns (r: Outcome<string>)
      requires Valid()
      modifies this
      ensures Valid()
      ensures calls == old(calls) + [ChannelCall.Connect(timeout)]
      ensures replies == Rest(old(replies)) && r == Conclude(Next(old(replies)), old(extensions))
      ensures extensions == old(extensions) && handshakes == old(handshakes)
    {
      var reply := Exchange(ChannelCall.Connect(timeout));
      r := Conclude(reply, extensions);
    }

    /** `helo`: never touches the capabilities. */
    method Helo(hostname: string, timeout: nat, systemHostname: string) returns (r: Outcome<string>)
      requires Valid()
      modifies this
      ensures Valid()
      ensures calls == old(calls) + [Write(HeloCommand(ClientName(hostname, systemHostname)), timeout)]
      ensures replies == Rest(old(replies)) && r == Conclude(Next(old(replies)), old(extensions))
      ensures extensions == old(extensions) && handshakes == old(handshakes)
    {
      r := Command(HeloCommand(ClientName(hostname, systemHostname)), timeout);
    }

    /** `ehlo`: on a 2xx reply the capabilities become the texts of every reply line but
        the first, decoded with the capabilities held BEFORE the reply; on any other
        outcome they are left as they were. */
    method Ehlo(hostname: string, timeout: nat, systemHostname: string) returns (r: Outcome<string>)
      requires Valid() && EhloDecodable(replies, extensions)
      modifies this
      ensures Valid()
      ensures calls == old(calls) + [Write(EhloCommand(ClientName(hostname, systemHostname)), timeout)]
      ensures replies == Rest(old(replies)) && r == Conclude(Next(old(replies)), old(extensions))
      ensures r.Ok? ==> extensions == ReplyTexts(old(replies)[0][1..], old(extensions))
      ensures r.Fail? ==> extensions == old(extensions)
      ensures handshakes == old(handshakes)
    {
      var reply := Exchange(Write(EhloCommand(ClientName(hostname, systemHostname)), timeout));
      r := Conclude(reply, extensions);
      if r.Ok? {
        extensions := ReplyTexts(reply.value[1..], extensions);
      }
    }

    /** `greet`: EHLO, and HELO after any EHLO failure, both with the same name and
        neither with the caller's timeout (the default 0 is passed). */
    method Greet(hostname: string, timeout: nat, systemHostname: string) returns (r: Outcome<string>)
      requires Valid() && EhloDecodable(replies, extensions)
      modifies this
      ensures Valid()
      ensures var name := ClientName(hostname, systemHostname);
              var ehlo := Conclude(Next(old(replies)), old(extensions));
              if ehlo.Ok? then
                && r == ehlo
                && calls == old(calls) + [Write(EhloCommand(name), 0)]
                && replies == Rest(old(replies))
                && extensions == ReplyTexts(old(replies)[0][1..], old(extensions))
              else
                && r == Conclude(Next(Rest(old(replies))), old(extensions))
                && calls == old(calls) + [Write(EhloCommand(name), 0), Write(HeloCommand(name), 0)]
                && replies == Rest(Rest(old(replies)))
                && extensions == old(extensions)
      ensures handshakes == old(handshakes)
    {
      r := Ehlo(hostname, 0, systemHostname);
      if r.Fail? {
        r := Helo(hostname, 0, systemHostname);
      }
    }

    /** `mail`: with `utf8` it needs SMTPUTF8 and fails before sending without it. */
    method Mail(from: string, utf8: bool, timeout: nat) returns (r: Outcome<string>)
      requires Valid()
      modifies this
      ensures Valid()
      ensures utf8 && !HasExtension(old(extensions), "SMTPUTF8") ==>
                r == Fail(Local(Utf8Unsupported)) && calls == old(calls) && replies == old(replies)
      ensures !(utf8 && !HasExtension(old(extensions), "SMTPUTF8")) ==>
                && calls == old(calls) + [Write(MailCommand(from, utf8), timeout)]
                && replies == Rest(old(replies)) && r == Conclude(Next(old(replies)), old(extensions))
      ensures extensions == old(extensions) && handshakes == old(handshakes)
    {
      if utf8 && !HasExtension(extensions, "SMTPUTF8") {
        r := Fail(Local(Utf8Unsupported));
        return;
      }
      r := Command(MailCommand(from, utf8), timeout);
    }

    /** `rcpt`. */
    method Rcpt(to: string, timeout: nat) returns (r: Outcome<string>)
      requires Valid()
      modifies this
      ensures Valid()
      ensures calls == old(calls) + [Write(RcptCommand(to), timeout)]
      ensures replies == Rest(old(replies)) && r == Conclude(Next(old(replies)), old(extensions))
      ensures extensions == old(extensions) && handshakes == old(handshakes)
    {
      r := Command(RcptCommand(to), timeout);
    }

    /** `noop`. */
    method Noop(timeout: nat) returns (r: Outcome<string>)
      requires Valid()
      modifies this
      ensures Valid()
      ensures calls == old(calls) + [Write(NoopCommand, timeout)]
      ensures replies == Rest(old(replies)) && r == Conclude(Next(old(replies)), old(extensions))
      ensures extensions == old(extensions) && handshakes == old(handshakes)
    {
      r := Command(NoopCommand, timeout);
    }

    /** `rset`. */
    method Rset(timeout: nat) returns (r: Outcome<string>)
      requires Valid()
      modifies this
      ensures Valid()
      ensures calls == old(calls) + [Write(RsetCommand, timeout)]
      ensures replies == Rest(old(replies)) && r == Conclude(Next(old(replies)), old(extensions))
      ensures extensions == old(extensions) && handshakes == old(handshakes)
    {
      r := Command(RsetCommand, timeout);
    }

    /** `quit`. */
    method Quit(timeout: nat) returns (r: Outcome<string>)
      requires Valid()
      modifies this
      ensures Valid()
      ensures calls == old(calls) + [Write(QuitCommand, timeout)]
      ensures replies == Rest(old(replies)) && r == Conclude(Next(old(replies)), old(extensions))
      ensures extensions == old(extensions) && handshakes == old(handshakes)
    {
      r := Command(QuitCommand, timeout);
    }

    /** `data`: a size over the SIZE limit fails before sending; otherwise DATA must get a
        3xx reply, then the stuffed body and its final `.` line must get a 2xx reply. A
        failure after the body is built from the body's reply alone. */
    method Data(source: string, sourceSize: int, timeout: nat) returns (r: Outcome<string>)
      requires Valid()
      modifies this
      ensures Valid()
      ensures var limit := GetDataSizeLimit(old(extensions));
              Exceeds(sourceSize, limit) ==>
                r == Fail(Local(SizeExceededMessage(limit.value))) && calls == old(calls) && replies == old(replies)
      ensures !Exceeds(sourceSize, GetDataSizeLimit(old(extensions))) ==>
                var first := Next(old(replies));
                if first.None? then
                  r == Fail(Channel) && calls == old(calls) + [Write(DataCommand, timeout)] && replies == []
                else if !IsIntermediate(ReplyCode(first.value[|first.value| - 1])) then
                  && r == Fail(Protocol(ResponseError(first.value, old(extensions))))
                  && calls == old(calls) + [Write(DataCommand, timeout)]
                  && replies == Rest(old(replies))
                else
                  && r == Conclude(Next(Rest(old(replies))), old(extensions))
                  && calls == old(calls) + [Write(DataCommand, timeout)] + [Write(DataBody(source), timeout)]
                  && replies == Rest(Rest(old(replies)))
      ensures extensions == old(extensions) && handshakes == old(handshakes)
    {
      var limit := GetDataSizeLimit(extensions);
      if Exceeds(sourceSize, limit) {
        r := Fail(Local(SizeExceededMessage(limit.value)));
        return;
      }
      r := DataExchange(source, timeout);
    }

    /** The DATA exchange itself, once the size is accepted. */
    method DataExchange(source: string, timeout: nat) returns (r: Outcome<string>)
      requires Valid()
      modifies this
      ensures Valid()
      ensures var first := Next(old(replies));
              if first.None? then
                r == Fail(Channel) && calls == old(calls) + [Write(DataCommand, timeout)] && replies == []
              else if !IsIntermediate(ReplyCode(first.value[|first.value| - 1])) then
                && r == Fail(Protocol(ResponseError(first.value, old(extensions))))
                && calls == old(calls) + [Write(DataCommand, timeout)]
                && replies == Rest(old(replies))
              else
                && r == Conclude(Next(Rest(old(replies))), old(extensions))
                && calls == old(calls) + [Write(DataCommand, timeout)] + [Write(DataBody(source), timeout)]
                && replies == Rest(Rest(old(replies)))
      ensures extensions == old(extensions) && handshakes == old(handshakes)
    {
      var reply := Exchange(Write(DataCommand, timeout));
      if reply.None? {
        r := Fail(Channel);
      } else if !IsIntermediate(ReplyCode(reply.value[|reply.value| - 1])) {
        r := Fail(Protocol(ResponseError(reply.value, extensions)));
      } else {
        r := Command(DataBody(source), timeout);
      }
    }

    /** `secure`: needs STARTTLS and fails before sending without it; after a 2xx reply
        it negotiates TLS and, only once that completes, forgets every capability. */
    method Secure(timeout: nat) returns (r: Outcome<()>)
      requires Valid()
      modifies this
      ensures Valid() && replies == (if HasExtension(old(extensions), "STARTTLS") then Rest(old(replies)) else old(replies))
      ensures !HasExtension(old(extensions), "STARTTLS") ==>
                && r == Fail(Local(TlsUnsupported)) && calls == old(calls)
                && extensions == old(extensions) && handshakes == old(handshakes)
      ensures HasExtension(old(extensions), "STARTTLS") ==>
                var starttls := Conclude(Next(old(replies)), old(extensions));
                if starttls.Fail? then
                  && r == Fail(starttls.failure) && calls == old(calls) + [Write(StartTlsCommand, timeout)]
                  && extensions == old(extensions) && handshakes == old(handshakes)
                else
                  && calls == old(calls) + [Write(StartTlsCommand, timeout), NegotiateTLS(timeout)]
                  && handshakes == Rest(old(handshakes))
                  && if Next(old(handshakes)) == Some(true) then r == Ok(()) && extensions == []
                     else r == Fail(Channel) && extensions == old(extensions)
    {
      if !HasExtension(extensions, "STARTTLS") {
        r := Fail(Local(TlsUnsupported));
        return;
      }
      var starttls := Command(StartTlsCommand, timeout);
      if starttls.Fail? {
        r := Fail(starttls.failure);
        return;
      }
      var ok := Negotiate(timeout);
      if ok {
        extensions := [];
        r := Ok(());
      } else {
        r := Fail(Channel);
      }
    }

    /** `authPlain`: needs PLAIN among the AUTH mechanisms and fails before sending
        without it; sends the base64 of the PLAIN credentials in one command. */
    method AuthPlain(username: string, password: string, timeout: nat, base64: string -> string) returns (r: Outcome<string>)
      requires Valid()
      modifies this
      ensures Valid()
      ensures "PLAIN" !in GetAuthMechanisms(old(extensions)) ==>
                r == Fail(Local(PlainUnsupported)) && calls == old(calls) && replies == old(replies)
      ensures "PLAIN" in GetAuthMechanisms(old(extensions)) ==>
                && calls == old(calls) + [Write(AuthPlainCommand(base64(PlainCredentials(username, password))), timeout)]
                && replies == Rest(old(replies)) && r == Conclude(Next(old(replies)), old(extensions))
      ensures extensions == old(extensions) && handshakes == old(handshakes)
    {
      if "PLAIN" !in GetAuthMechanisms(extensions) {
        r := Fail(Local(PlainUnsupported));
        return;
      }
      r := Command(AuthPlainCommand(base64(PlainCredentials(username, password))), timeout);
    }

    /** `authLogin`: needs LOGIN among the AUTH mechanisms and fails before sending
        without it; otherwise it makes the LOGIN exchange over the script. */
    method AuthLogin(username: string, password: string, timeout: nat, base64: string -> string) returns (r: Outcome<string>)
      requires Valid()
      modifies this
      ensures Valid()
      ensures "LOGIN" !in GetAuthMechanisms(old(extensions)) ==>
                r == Fail(Local(LoginUnsupported)) && calls == old(calls) && replies == old(replies)
      ensures "LOGIN" in GetAuthMechanisms(old(extensions)) ==>
                && r == LoginOutcome(old(replies), old(extensions))
                && calls == old(calls) + LoginCalls(username, password, timeout, base64)[..LoginWrites(old(replies))]
                && replies == old(replies)[Consumed(old(replies))..]
      ensures extensions == old(extensions) && handshakes == old(handshakes)
    {
      if "LOGIN" !in GetAuthMechanisms(extensions) {
        r := Fail(Local(LoginUnsupported));
        return;
      }
      r := LoginExchange(username, password, timeout, base64);
    }

    /** The LOGIN exchange itself: AUTH LOGIN, the user name after the first challenge,
        the password after the second, and the reply to the password decides. */
    method LoginExchange(username: string, password: string, timeout: nat, base64: string -> string) returns (r: Outcome<string>)
      requires Valid()
      modifies this
      ensures Valid()
      ensures r == LoginOutcome(old(replies), old(extensions))
      ensures calls == old(calls) + LoginCalls(username, password, timeout, base64)[..LoginWrites(old(replies))]
      ensures replies == old(replies)[Consumed(old(replies))..]
      ensures extensions == old(extensions) && handshakes == old(handshakes)
    {
      ghost var calls0, script := calls, replies;
      ghost var writes := LoginCalls(username, password, timeout, base64);
      LoginCallsPrefixes(calls0, writes);
      LoginSteps(script, extensions);
      var stop := Expect(AuthLoginCommand, UsernameChallenge, timeout);
      if stop.Some? {
        r := stop.value;
        return;
      }
      r := PasswordExchange(username, password, timeout, base64);
    }

    /** The LOGIN exchange once the user name was asked for: the user name, then the
        password after the second challenge. */
    method PasswordExchange(username: string, password: string, timeout: nat, base64: string -> string) returns (r: Outcome<string>)
      requires Valid()
      modifies this
      ensures Valid()
      ensures var second := Challenge(Next(old(replies)), PasswordChallenge, old(extensions));
              if second.Some? then
                r == second.value && replies == Rest(old(replies)) &&
                calls == old(calls) + [Write(TokenLine(base64(username)), timeout)]
              else
                r == Conclude(Next(Rest(old(replies))), old(extensions)) && replies == Rest(Rest(old(replies))) &&
                calls == old(calls) + [Write(TokenLine(base64(username)), timeout), Write(TokenLine(base64(password)), timeout)]
      ensures extensions == old(extensions) && handshakes == old(handshakes)
    {
      var stop := Expect(TokenLine(base64(username)), PasswordChallenge, timeout);
      if stop.Some? {
        r := stop.value;
        return;
      }
      r := Command(TokenLine(base64(password)), timeout);
    }
  }
}
