/** The text the client puts on the wire: one CRLF-terminated command per verb, the
    dot-stuffed message body of section 4.5.2 of RFC 5321, the PLAIN credentials of
    section 2 of RFC 4616, and the local host name an EHLO or HELO carries
    (section 4.1.3 of RFC 2821). */
module Commands {
  import opened Js

  predicate IsCrlfTerminated(s: string) {
    |s| >= 2 && s[|s| - 2] == '\r' && s[|s| - 1] == '\n'
  }

  /** The HELO line; the name it carries reads back from between the verb and CRLF. */
  function HeloCommand(hostname: string): (line: string)
    ensures |line| >= 7 && IsCrlfTerminated(line) && line[..5] == "HELO "
    ensures line[5..|line| - 2] == hostname
  {
    "HELO " + hostname + "\r\n"
  }

  /** The EHLO line; the name it carries reads back from between the verb and CRLF. */
  function EhloCommand(hostname: string): (line: string)
    ensures |line| >= 7 && IsCrlfTerminated(line) && line[..5] == "EHLO "
    ensures line[5..|line| - 2] == hostname
  {
    "EHLO " + hostname + "\r\n"
  }

  /** The MAIL line: the sender in angle brackets, followed by the SMTPUTF8 parameter of
      RFC 6531 when asked for; the sender reads back from between the brackets. */
  function MailCommand(from: string, utf8: bool): (line: string)
    ensures |line| >= 14 && IsCrlfTerminated(line) && line[..11] == "MAIL FROM:<"
    ensures utf8 ==> |line| >= 23 && line[|line| - 12..] == "> SMTPUTF8\r\n" && line[11..|line| - 12] == from
    ensures !utf8 ==> |line| >= 14 && line[|line| - 3..] == ">\r\n" && line[11..|line| - 3] == from
  {
    if utf8 then "MAIL FROM:<" + from + "> SMTPUTF8\r\n" else "MAIL FROM:<" + from + ">\r\n"
  }

  /** The RCPT line: the recipient in angle brackets, read back from between them. */
  function RcptCommand(to: string): (line: string)
    ensures |line| >= 12 && IsCrlfTerminated(line) && line[..9] == "RCPT TO:<"
    ensures |line| >= 12 && line[|line| - 3..] == ">\r\n" && line[9..|line| - 3] == to
  {
    "RCPT TO:<" + to + ">\r\n"
  }

  const NoopCommand := "NOOP\r\n"
  const RsetCommand := "RSET\r\n"
  const QuitCommand := "QUIT\r\n"
  const DataCommand := "DATA\r\n"
  const StartTlsCommand := "STARTTLS\r\n"
  const AuthLoginCommand := "AUTH LOGIN\r\n"

  /** The two challenges of the LOGIN mechanism: "Username:" and "Password:" in base64. */
  const UsernameChallenge := "334 VXNlcm5hbWU6"
  const PasswordChallenge := "334 UGFzc3dvcmQ6"

  /** The PLAIN message: an empty authorization identity, NUL, the user, NUL, the password.
      When neither holds a NUL, splitting at NUL gives the three fields back. */
  function PlainCredentials(username: string, password: string): (message: string)
    ensures '\0' !in username && '\0' !in password ==> Split(message, '\0') == ["", username, password]
  {
    var message := "\0" + username + "\0" + password;
    if '\0' !in username && '\0' !in password then
      PlainFields(username, password);
      message
    else message
  }

  /** The three PLAIN fields read back from the message. */
  lemma PlainFields(username: string, password: string)
    requires '\0' !in username && '\0' !in password
    ensures Split("\0" + username + "\0" + password, '\0') == ["", username, password]
  {
    var parts := ["", username, password];
    assert parts[1..] == [username, password] && parts[1..][1..] == [password];
    assert Join(parts[1..], "\0") == username + "\0" + password;
    assert Join(parts, "\0") == "" + "\0" + (username + "\0" + password);
    assert "\0" + username + "\0" + password == Join(parts, "\0");
    SplitJoin(parts, '\0');
  }

  /** The AUTH PLAIN line with its initial response; the token reads back from it. */
  function AuthPlainCommand(token: string): (line: string)
    ensures |line| >= 13 && IsCrlfTerminated(line) && line[..11] == "AUTH PLAIN "
    ensures line[11..|line| - 2] == token
  {
    "AUTH PLAIN " + token + "\r\n"
  }

  /** One base64 token on a line of its own, as the LOGIN exchange sends it. */
  function TokenLine(token: string): (line: string)
    ensures IsCrlfTerminated(line) && line[..|line| - 2] == token
  {
    token + "\r\n"
  }

  /** The local error of `data` when the size is over the limit: the limit is written
      between the fixed text and " bytes)" (SizeExceededLimit reads it back). */
  function SizeExceededMessage(limit: int): (message: string)
    ensures |message| > 49 && message[..42] == "Message size exceeds the allowable limit ("
    ensures message[|message| - 7..] == " bytes)"
  {
    "Message size exceeds the allowable limit (" + IntToDecimal(limit) + " bytes)"
  }

  /** `parseInt` of the text between the fixed parts of the message gives the limit. */
  lemma SizeExceededLimit(limit: int)
    ensures var message := SizeExceededMessage(limit);
            ParseInt(message[42..|message| - 7]) == Int(limit)
  {
    var message := SizeExceededMessage(limit);
    assert message[42..|message| - 7] == IntToDecimal(limit);
    ParseIntOfDecimal(limit);
  }

  const Utf8Unsupported := "Server does not support UTF8 mailboxes"
  const TlsUnsupported := "SMTP server does not support TLS"
  const PlainUnsupported := "SMTP server does not support the PLAIN authentication mechanism"
  const LoginUnsupported := "SMTP server does not support the LOGIN authentication mechanism"

  /** A `.` at the start of the text or right after a line terminator (what `/^\./m` matches). */
  predicate IsDotLine(s: string, at: nat) {
    at < |s| && s[at] == '.' && (at == 0 || IsLineTerminator(s[at - 1]))
  }

  function FirstDotLineFrom(s: string, from: nat): (at: Option<nat>)
    requires from <= |s|
    ensures at.Some? ==> from <= at.value && IsDotLine(s, at.value)
    ensures forall k :: from <= k < |s| && (at.None? || k < at.value) ==> !IsDotLine(s, k)
    decreases |s| - from
  {
    if from == |s| then None
    else if IsDotLine(s, from) then Some(from)
    else FirstDotLineFrom(s, from + 1)
  }

  /** Where the first line that begins with `.` begins. */
  function FirstDotLine(s: string): (at: Option<nat>)
    ensures at.Some? ==> IsDotLine(s, at.value)
    ensures forall k :: 0 <= k < |s| && (at.None? || k < at.value) ==> !IsDotLine(s, k)
  {
    FirstDotLineFrom(s, 0)
  }

  /** `source.replace(/^\./m, '..')`: without the `g` flag only the FIRST line that begins
      with `.` gets a second `.`; every later one is sent as it is. */
  function DotStuff(source: string): (stuffed: string)
    ensures FirstDotLine(source).None? ==> stuffed == source
    ensures FirstDotLine(source).Some? ==>
              var at := FirstDotLine(source).value;
              stuffed == source[..at] + "." + source[at..]
  {
    match FirstDotLine(source)
    case None => source
    case Some(at) => source[..at] + "." + source[at..]
  }

  /** Undoes the stuffing of the first line that begins with `..`. */
  function Unstuff(s: string): string {
    match FirstDotLine(s)
    case None => s
    case Some(at) => if at + 1 < |s| && s[at + 1] == '.' then s[..at] + s[at + 1..] else s
  }

  /** The stuffed body still has its first dot line where the source had it, now doubled. */
  lemma {:induction false} DotStuffFirstLine(source: string)
    requires FirstDotLine(source).Some?
    ensures FirstDotLine(DotStuff(source)) == FirstDotLine(source)
    ensures var at := FirstDotLine(source).value;
            at + 1 < |DotStuff(source)| && DotStuff(source)[at] == '.' && DotStuff(source)[at + 1] == '.'
  {
    var at := FirstDotLine(source).value;
    var stuffed := DotStuff(source);
    assert IsDotLine(stuffed, at);
    forall k | 0 <= k < at
      ensures !IsDotLine(stuffed, k)
    {
      assert stuffed[k] == source[k];
      assert k > 0 ==> stuffed[k - 1] == source[k - 1];
      assert !IsDotLine(source, k);
    }
    var found := FirstDotLine(stuffed);
    assert found == Some(at);
  }

  /** Stuffing loses nothing: unstuffing gives the source back. */
  lemma UnstuffDotStuff(source: string)
    ensures Unstuff(DotStuff(source)) == source
  {
    if FirstDotLine(source).Some? {
      DotStuffFirstLine(source);
      var at := FirstDotLine(source).value;
      var stuffed := DotStuff(source);
      assert stuffed[..at] + stuffed[at + 1..] == source;
    }
  }

  /** The body the DATA exchange sends: the stuffed source and the terminating `.` line;
      what precedes that line unstuffs to the source. */
  function DataBody(source: string): (body: string)
    ensures |body| >= 5 && body[|body| - 5..] == "\r\n.\r\n"
    ensures Unstuff(body[..|body| - 5]) == source
  {
    var stuffed := DotStuff(source);
    UnstuffDotStuff(source);
    assert (stuffed + "\r\n.\r\n")[..|stuffed|] == stuffed;
    stuffed + "\r\n.\r\n"
  }

  /** One to three ASCII digits (`\d{1,3}`). */
  predicate IsOctet(s: string) {
    1 <= |s| <= 3 && forall k :: 0 <= k < |s| ==> IsDecimalDigit(s[k])
  }

  /** `/^\d{1,3}\.\d{1,3}\.\d{1,3}\.\d{1,3}$/`: four groups of one to three digits. */
  predicate IsDottedQuad(host: string) {
    var parts := Split(host, '.');
    |parts| == 4 && forall i :: 0 <= i < 4 ==> IsOctet(parts[i])
  }

  /** A bracketed IPv4 literal. */
  predicate IsAddressLiteral(s: string) {
    |s| >= 2 && s[0] == '[' && s[|s| - 1] == ']' && IsDottedQuad(s[1..|s| - 1])
  }

  /** `_getHostname()` with the machine's name given: a name without a dot becomes the
      loopback literal, a dotted-quad address is bracketed, any other name is kept. The
      result is an address literal or a dotted name that is not a bare address. */
  function GetHostname(systemHostname: string): (hostname: string)
    ensures '.' !in systemHostname ==> hostname == "[127.0.0.1]"
    ensures IsDottedQuad(systemHostname) ==> hostname == "[" + systemHostname + "]"
    ensures '.' in systemHostname && !IsDottedQuad(systemHostname) ==> hostname == systemHostname
    ensures IsAddressLiteral(hostname) || ('.' in hostname && !IsDottedQuad(hostname))
  {
    if '.' !in systemHostname then
      SplitAppend(systemHostname, "", '.');
      assert systemHostname + "" == systemHostname;
      LoopbackIsAddressLiteral("[127.0.0.1]");
      "[127.0.0.1]"
    else if IsDottedQuad(systemHostname) then
      Bracketed(systemHostname);
      "[" + systemHostname + "]"
    else systemHostname
  }

  /** Four octets joined by dots make a dotted quad. */
  lemma {:induction false} DottedQuadOf(a: string, b: string, c: string, d: string)
    requires IsOctet(a) && IsOctet(b) && IsOctet(c) && IsOctet(d)
    ensures IsDottedQuad(a + "." + b + "." + c + "." + d)
  {
    var parts := [a, b, c, d];
    forall i | 0 <= i < 4
      ensures '.' !in parts[i]
    {
      assert forall k :: 0 <= k < |parts[i]| ==> IsDecimalDigit(parts[i][k]);
    }
    assert Join(parts[3..], ".") == d;
    assert Join(parts[2..], ".") == c + "." + d;
    assert Join(parts[1..], ".") == b + "." + c + "." + d;
    assert Join(parts, ".") == a + "." + b + "." + c + "." + d;
    SplitJoin(parts, '.');
  }

  /** ... and every dotted quad is four octets joined by dots. */
  lemma DottedQuadParts(host: string)
    requires IsDottedQuad(host)
    ensures var parts := Split(host, '.');
            && IsOctet(parts[0]) && IsOctet(parts[1]) && IsOctet(parts[2]) && IsOctet(parts[3])
            && host == parts[0] + "." + parts[1] + "." + parts[2] + "." + parts[3]
  {
    var parts := Split(host, '.');
    JoinSplit(host, '.');
    assert Join(parts[3..], ".") == parts[3];
    assert Join(parts[2..], ".") == parts[2] + "." + parts[3];
    assert Join(parts[1..], ".") == parts[1] + "." + parts[2] + "." + parts[3];
  }

  /** A dotted quad in brackets is an address literal. */
  lemma Bracketed(address: string)
    requires IsDottedQuad(address)
    ensures IsAddressLiteral("[" + address + "]")
  {
    var bracketed := "[" + address + "]";
    assert bracketed[1..|bracketed| - 1] == address;
  }

  /** 127.0.0.1 is a dotted quad. */
  lemma LoopbackIsDottedQuad(address: string)
    requires address == "127.0.0.1"
    ensures IsDottedQuad(address)
  {
    assert IsOctet("127") && IsOctet("0") && IsOctet("1");
    DottedQuadOf("127", "0", "0", "1");
    assert "127" + "." + "0" + "." + "0" + "." + "1" == address;
  }

  /** The loopback substitute is an address literal. */
  lemma LoopbackIsAddressLiteral(literal: string)
    requires literal == "[127.0.0.1]"
    ensures IsAddressLiteral(literal)
  {
    var address := literal[1..|literal| - 1];
    assert address == "127.0.0.1";
    LoopbackIsDottedQuad(address);
  }

  /** The name a HELO or EHLO carries: the one given, or `_getHostname()` when none
      (`null` or "") is. */
  function ClientName(hostname: string, systemHostname: string): (name: string)
    ensures name != ""
    ensures hostname != "" ==> name == hostname
    ensures hostname == "" ==> name == GetHostname(systemHostname)
    ensures hostname == "" ==> IsAddressLiteral(name) || ('.' in name && !IsDottedQuad(name))
  {
    if hostname == "" then GetHostname(systemHostname) else hostname
  }
}
