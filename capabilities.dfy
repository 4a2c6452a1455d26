/** Queries over the capability list the server advertised in its EHLO reply:
    `hasExtension`, `getDataSizeLimit` (the SIZE extension of RFC 1870) and
    `getAuthMechanisms` (the AUTH extension of RFC 4954). Each capability is the
    text of one reply line, e.g. "SIZE 35882577" or "AUTH LOGIN PLAIN". */
module Capabilities {
  import opened Js

  /** `capability.split(' ')[0]`: the name of the capability, the text before its first
      space (all of it when there is none). */
  function FirstToken(capability: string): (name: string)
    ensures ' ' !in name
    ensures |name| <= |capability| && name == capability[..|name|]
    ensures |name| == |capability| || capability[|name|] == ' '
  {
    SplitHead(capability, ' ');
    Split(capability, ' ')[0]
  }

  lemma FirstTokenOfEmpty()
    ensures FirstToken("") == ""
  {
  }

  /** The name is the text before the first space. */
  lemma FirstTokenOf(name: string, rest: string)
    requires ' ' !in name
    ensures FirstToken(name) == name
    ensures FirstToken(name + " " + rest) == name
  {
    SplitAppend(name, "", ' ');
    assert name + "" == name;
    assert name + " " + rest == name + (" " + rest);
    SplitAppend(name, " " + rest, ' ');
    assert (" " + rest)[1..] == rest;
  }

  /** `extensions.find(e => e.split(' ')[0] === name)`, as the index of the capability found. */
  function FindCapability(extensions: seq<string>, name: string): (found: Option<nat>)
    ensures found.Some? ==> found.value < |extensions| && FirstToken(extensions[found.value]) == name
    ensures forall j :: 0 <= j < |extensions| && (found.None? || j < found.value) ==>
                          FirstToken(extensions[j]) != name
  {
    if extensions == [] then None
    else if FirstToken(extensions[0]) == name then Some(0)
    else
      match FindCapability(extensions[1..], name)
      case None => None
      case Some(k) => Some(k + 1)
  }

  /** `hasExtension(name)`: `!!` of the capability found, so an empty capability found
      for the empty name counts as absent. For any other name it holds exactly when
      some capability's first token is the name, compared case-sensitively. */
  function HasExtension(extensions: seq<string>, name: string): (has: bool)
    ensures name != "" ==> (has <==> exists i :: 0 <= i < |extensions| && FirstToken(extensions[i]) == name)
    ensures extensions == [] ==> !has
  {
    match FindCapability(extensions, name)
    case None => false
    case Some(i) => extensions[i] != ""
  }

  /** `getDataSizeLimit()`: 0 without a SIZE capability, otherwise `parseInt` of its
      second token (NaN when there is none or it holds no digits). */
  function GetDataSizeLimit(extensions: seq<string>): (limit: Number)
    ensures !HasExtension(extensions, "SIZE") ==> limit == Int(0)
  {
    match FindCapability(extensions, "SIZE")
    case None => Int(0)
    case Some(i) =>
      var tokens := Split(extensions[i], ' ');
      if |tokens| >= 2 then ParseInt(tokens[1]) else NaN
  }

  /** A server that advertises "SIZE n" (first among its SIZE capabilities) gets n back. */
  lemma {:induction false} DataSizeLimitAdvertised(extensions: seq<string>, i: nat, n: int)
    requires i < |extensions| && extensions[i] == "SIZE " + IntToDecimal(n)
    requires forall j :: 0 <= j < i ==> FirstToken(extensions[j]) != "SIZE"
    ensures GetDataSizeLimit(extensions) == Int(n)
  {
    var digits := IntToDecimal(n);
    assert ' ' !in digits by {
      if n < 0 {
        assert forall k :: 1 <= k < |digits| ==> digits[k] == NatToDecimal(-n)[k - 1];
      }
    }
    FirstTokenOf("SIZE", digits);
    assert extensions[i] == "SIZE" + " " + digits;
    var found := FindCapability(extensions, "SIZE");
    assert found == Some(i);
    assert extensions[i] == Join(["SIZE", digits], [' ']);
    SplitJoin(["SIZE", digits], ' ');
    ParseIntOfDecimal(n);
  }

  /** `tokens.filter(e => !!e)`: the non-empty tokens, and only those (in their order,
      by NonEmptyAppend). */
  function NonEmpty(tokens: seq<string>): (kept: seq<string>)
    ensures |kept| <= |tokens|
    ensures forall t :: t in kept <==> t in tokens && t != ""
    ensures (forall t :: t in tokens ==> t != "") ==> kept == tokens
  {
    if tokens == [] then []
    else
      assert tokens == [tokens[0]] + tokens[1..];
      assert tokens[0] in tokens && forall t :: t in tokens[1..] ==> t in tokens;
      (if tokens[0] != "" then [tokens[0]] else []) + NonEmpty(tokens[1..])
  }

  /** Filtering keeps the order: the tokens of a concatenation are filtered piece by piece. */
  lemma {:induction false} NonEmptyAppend(a: seq<string>, b: seq<string>)
    ensures NonEmpty(a + b) == NonEmpty(a) + NonEmpty(b)
  {
    if a != [] {
      var head := if a[0] != "" then [a[0]] else [];
      assert (a + b)[0] == a[0] && (a + b)[1..] == a[1..] + b;
      assert NonEmpty(a + b) == head + NonEmpty(a[1..] + b);
      NonEmptyAppend(a[1..], b);
      ConcatAssoc(head, NonEmpty(a[1..]), NonEmpty(b));
    } else {
      assert a + b == b;
    }
  }

  /** `token.trim().toUpperCase()`: the token without its leading and trailing `\s`
      characters, every ASCII letter in it upper-cased. */
  function NormalizedToken(token: string): (name: string)
    ensures IsUpperCased(name) && IsTrimmed(name)
  {
    var t := Trim(token);
    var u := ToUpper(t);
    u
  }

  /** The name is the token's characters between its leading and its trailing run of
      `\s` characters, each ASCII letter upper-cased. */
  lemma NormalizedTokenChars(token: string)
    ensures var i := |token| - |TrimStart(token)|;
            var j := i + |Trim(token)|;
            && j <= |token| && NormalizedToken(token) == ToUpper(token[i..j])
            && (forall k :: 0 <= k < i ==> IsSpace(token[k]))
            && (forall k :: j <= k < |token| ==> IsSpace(token[k]))
  {
    TrimSlice(token);
  }

  /** A word is its own trim, so normalizing it only upper-cases it. */
  lemma WordNormalized(word: string)
    requires NoSpace(word)
    ensures NormalizedToken(word) == ToUpper(word)
  {
    TrimWord(word);
  }

  /** Each token trimmed and upper-cased. */
  function Normalized(tokens: seq<string>): (names: seq<string>)
    ensures |names| == |tokens|
    ensures forall i {:trigger names[i]} :: 0 <= i < |names| ==> names[i] == NormalizedToken(tokens[i])
  {
    seq(|tokens|, i requires 0 <= i < |tokens| => NormalizedToken(tokens[i]))
  }

  /** `getAuthMechanisms()`: without an AUTH capability the empty list; otherwise its
      `' '`-separated tokens with the empty ones dropped, trimmed and upper-cased, and
      the first (AUTH itself) sliced off. */
  function GetAuthMechanisms(extensions: seq<string>): (mechanisms: seq<string>)
    ensures !HasExtension(extensions, "AUTH") ==> mechanisms == []
    ensures forall i :: 0 <= i < |mechanisms| ==> IsUpperCased(mechanisms[i]) && IsTrimmed(mechanisms[i])
  {
    match FindCapability(extensions, "AUTH")
    case None => []
    case Some(i) =>
      var tokens := Split(extensions[i], ' ');
      assert NonEmpty(tokens) == ["AUTH"] + NonEmpty(tokens[1..]);
      Normalized(NonEmpty(tokens))[1..]
  }

  /** The mechanisms are the non-empty tokens after AUTH, normalized, in their order. */
  lemma AuthMechanismsAfterAuth(extensions: seq<string>, i: nat)
    requires FindCapability(extensions, "AUTH") == Some(i)
    ensures GetAuthMechanisms(extensions) == Normalized(NonEmpty(Split(extensions[i], ' ')[1..]))
  {
    var tokens := Split(extensions[i], ' ');
    var kept := NonEmpty(tokens[1..]);
    assert tokens[0] == "AUTH";
    assert NonEmpty(tokens) == ["AUTH"] + kept;
    NormalizedTail("AUTH", kept);
  }

  /** A server that advertises "AUTH m1 m2 …" (first among its AUTH capabilities, the
      mechanisms non-empty words separated by single spaces) gets exactly those
      mechanisms back, upper-cased and in their order; "AUTH " alone gives none. */
  lemma {:induction false} AuthMechanismsAdvertised(extensions: seq<string>, i: nat, mechanisms: seq<string>)
    requires i < |extensions| && extensions[i] == "AUTH " + Join(mechanisms, " ")
    requires forall j :: 0 <= j < i ==> FirstToken(extensions[j]) != "AUTH"
    requires forall m :: m in mechanisms ==> m != "" && NoSpace(m)
    ensures GetAuthMechanisms(extensions) == seq(|mechanisms|, k requires 0 <= k < |mechanisms| => ToUpper(mechanisms[k]))
  {
    assert "AUTH " + Join(mechanisms, " ") == "AUTH" + " " + Join(mechanisms, " ");
    SplitNameWords("AUTH", mechanisms);
    var rest := Split(extensions[i], ' ')[1..];
    assert FirstToken(extensions[i]) == "AUTH";
    assert FindCapability(extensions, "AUTH") == Some(i);
    AuthMechanismsAfterAuth(extensions, i);
    NormalizedWords(mechanisms);
    if mechanisms == [] {
      assert rest == [""];
      assert NonEmpty(rest) == [];
    } else {
      assert rest == mechanisms;
    }
  }

  /** A name followed by single-spaced words splits into the name and the words; with no
      words, the trailing space leaves one empty token. */
  lemma {:induction false} SplitNameWords(name: string, words: seq<string>)
    requires ' ' !in name
    requires forall w :: w in words ==> NoSpace(w)
    ensures Split(name + " " + Join(words, " "), ' ') == [name] + (if words == [] then [""] else words)
  {
    var parts := [name] + (if words == [] then [""] else words);
    assert parts[1..] == if words == [] then [""] else words;
    assert name + " " + Join(words, " ") == Join(parts, [' ']);
    forall k | 0 <= k < |parts| ensures ' ' !in parts[k] {
      if k > 0 && words != [] {
        assert parts[k] == words[k - 1] && parts[k] in words;
        assert IsSpace(' ') && NoSpace(parts[k]);
        assert forall j :: 0 <= j < |parts[k]| ==> parts[k][j] != ' ';
      }
    }
    SplitJoin(parts, ' ');
  }

  /** Words are kept by the filter, and normalizing them only upper-cases them. */
  lemma NormalizedWords(words: seq<string>)
    requires forall w :: w in words ==> w != "" && NoSpace(w)
    ensures Normalized(NonEmpty(words)) == seq(|words|, k requires 0 <= k < |words| => ToUpper(words[k]))
  {
    forall k | 0 <= k < |words| ensures Normalized(words)[k] == ToUpper(words[k]) {
      assert words[k] in words;
      WordNormalized(words[k]);
    }
  }

  /** Normalizing commutes with dropping the first token. */
  lemma NormalizedTail(first: string, tokens: seq<string>)
    ensures Normalized([first] + tokens)[1..] == Normalized(tokens)
  {
    var all, names := Normalized([first] + tokens), Normalized(tokens);
    forall k | 0 <= k < |tokens|
      ensures all[k + 1] == names[k]
    {
      assert ([first] + tokens)[k + 1] == tokens[k];
    }
    assert all[1..] == names;
  }
}
