/**
 The hostname grammar (`HostnameSetRequest`, src/appliance_admin/models.py) and the reading
 of busctl's replies (`_wait_for_avahi_hostname`, src/appliance_admin/daemon/managers/system.py).
 */
module Hostnames {
  import opened Wrappers

  // ------------------------------------------------------------------------ characters

  predicate IsUpper(c: char) { 'A' <= c <= 'Z' }

  predicate IsLower(c: char) { 'a' <= c <= 'z' }

  predicate IsDigit(c: char) { '0' <= c <= '9' }

  predicate IsAlnum(c: char) { IsUpper(c) || IsLower(c) || IsDigit(c) }

  predicate IsAlnumOrHyphen(c: char) { IsAlnum(c) || c == '-' }

  function LowerChar(c: char): char {
    if IsUpper(c) then ((c as int) + 32) as char else c
  }

  /** `str.lower` on ASCII. */
  function Lower(s: string): string {
    seq(|s|, i requires 0 <= i < |s| => LowerChar(s[i]))
  }

  // ----------------------------------------------------------------------- the pattern

  /** The regular expressions the pattern is made of; a match covers the whole string. */
  datatype Regex =
    | One(accepts: char -> bool)
    | Repeat(accepts: char -> bool, lo: nat, hi: nat)
    | Concat(first: Regex, second: Regex)
    | Optional(body: Regex)

  predicate Matches(r: Regex, s: string) {
    match r
    case One(p) => |s| == 1 && p(s[0])
    case Repeat(p, lo, hi) => lo <= |s| <= hi && forall i | 0 <= i < |s| :: p(s[i])
    case Concat(a, b) => exists i | 0 <= i <= |s| :: Matches(a, s[..i]) && Matches(b, s[i..])
    case Optional(b) => s == "" || Matches(b, s)
  }

  /** `^[A-Za-z0-9](?:[A-Za-z0-9-]{0,61}[A-Za-z0-9])?$` */
  function HostnamePattern(): Regex {
    Concat(One(IsAlnum), Optional(PatternTail()))
  }

  function PatternTail(): Regex {
    Concat(Repeat(IsAlnumOrHyphen, 0, 61), One(IsAlnum))
  }

  /** What the request model accepts: the pattern, and 1 to 63 characters. */
  predicate ValidHostname(s: string) {
    1 <= |s| <= 63 && Matches(HostnamePattern(), s)
  }

  /**
   A label of section 2.1 of RFC 1123, at most 63 octets long as section 2.3.4 of RFC 1035 has it:
   letters, digits and hyphens, with no hyphen at either end.
   */
  predicate IsLabel(s: string) {
    && 1 <= |s| <= 63
    && (forall i | 0 <= i < |s| :: 'A' <= s[i] <= 'Z' || 'a' <= s[i] <= 'z' || '0' <= s[i] <= '9' || s[i] == '-')
    && s[0] != '-' && s[|s| - 1] != '-'
  }

  lemma {:induction false} TailMatches(t: string)
    ensures Matches(PatternTail(), t) <==>
            1 <= |t| <= 62 && IsAlnum(t[|t| - 1]) && forall k | 0 <= k < |t| - 1 :: IsAlnumOrHyphen(t[k])
  {
    var front, last := Repeat(IsAlnumOrHyphen, 0, 61), One(IsAlnum);
    forall j | 0 <= j <= |t|
      ensures Matches(front, t[..j]) && Matches(last, t[j..]) <==>
              j == |t| - 1 <= 61 && IsAlnum(t[j]) && forall k | 0 <= k < j :: IsAlnumOrHyphen(t[k])
    {
      assert forall k | 0 <= k < j :: t[..j][k] == t[k];
      assert j < |t| ==> t[j..][0] == t[j];
    }
    if t != "" {
      assert Matches(PatternTail(), t) <==> exists j :: 0 <= j <= |t| && Matches(front, t[..j])
                                                        && Matches(last, t[j..]);
      assert 0 <= |t| - 1 <= |t|;
    }
  }

  /** The pattern accepts exactly the labels; its own length bounds make the model's redundant. */
  lemma {:induction false} PatternAcceptsLabels(s: string)
    ensures Matches(HostnamePattern(), s) <==> IsLabel(s)
    ensures ValidHostname(s) <==> IsLabel(s)
  {
    var head, rest := One(IsAlnum), Optional(PatternTail());
    hide PatternTail;
    assert Matches(HostnamePattern(), s) <==> exists i :: 0 <= i <= |s| && Matches(head, s[..i])
                                                          && Matches(rest, s[i..]);
    if s != "" {
      var t := s[1..];
      TailMatches(t);
      assert forall k | 0 <= k < |t| :: t[k] == s[k + 1];
      assert Matches(head, s[..1]) <==> IsAlnum(s[0]);
      assert Matches(rest, t) <==> t == "" || Matches(PatternTail(), t);
    }
  }

  /** `t` is `s` with every upper-case letter replaced by the same one of the lower-case alphabet, and nothing else. */
  predicate LowerCaseOf(s: string, t: string) {
    && |t| == |s|
    && forall i | 0 <= i < |s| ::
         t[i] == if 'A' <= s[i] <= 'Z' then "abcdefghijklmnopqrstuvwxyz"[s[i] as int - 'A' as int] else s[i]
  }

  /** Lower-casing is what its name says, is idempotent, and leaves no upper-case letter. */
  lemma {:induction false} LowerExact(s: string)
    ensures LowerCaseOf(s, Lower(s)) && Lower(Lower(s)) == Lower(s)
    ensures forall i | 0 <= i < |s| :: !('A' <= Lower(s)[i] <= 'Z')
  {
    forall i | 0 <= i < |s| && 'A' <= s[i] <= 'Z'
      ensures Lower(s)[i] == "abcdefghijklmnopqrstuvwxyz"[s[i] as int - 'A' as int]
    {
      AlphabetAt(s[i] as int - 'A' as int);
    }
  }

  lemma {:induction false} AlphabetAt(k: nat)
    requires k < 26
    ensures "abcdefghijklmnopqrstuvwxyz"[k] as int == 'a' as int + k
  {
  }

  lemma {:induction false} LowerCharKeeps(c: char)
    requires 'A' <= c <= 'Z' || 'a' <= c <= 'z' || '0' <= c <= '9' || c == '-'
    ensures var d := LowerChar(c);
            ('a' <= d <= 'z' || '0' <= d <= '9' || d == '-') && (d == '-' ==> c == '-')
  {
  }

  lemma {:induction false} LowerChars(s: string)
    requires forall i | 0 <= i < |s| :: 'A' <= s[i] <= 'Z' || 'a' <= s[i] <= 'z' || '0' <= s[i] <= '9' || s[i] == '-'
    ensures |Lower(s)| == |s|
    ensures forall i | 0 <= i < |s| :: 'a' <= Lower(s)[i] <= 'z' || '0' <= Lower(s)[i] <= '9' || Lower(s)[i] == '-'
    ensures forall i | 0 <= i < |s| :: Lower(s)[i] == '-' ==> s[i] == '-'
  {
    hide LowerChar;
    forall i | 0 <= i < |s|
      ensures 'a' <= Lower(s)[i] <= 'z' || '0' <= Lower(s)[i] <= '9' || Lower(s)[i] == '-'
      ensures Lower(s)[i] == '-' ==> s[i] == '-'
    {
      LowerCharKeeps(s[i]);
    }
  }

  /** It stays in the language. */
  lemma {:induction false} LowerKeepsLabels(s: string)
    requires IsLabel(s)
    ensures IsLabel(Lower(s)) && LowerCaseOf(s, Lower(s))
  {
    hide Lower, LowerCaseOf;
    LowerChars(s);
    LowerExact(s);
  }

  // ------------------------------------------------------------------ Python's shlex.split

  /** Where `shlex` stands: between tokens, in a token, in quotes, or after a backslash. */
  datatype Lexer = Between | Word | Quoted(quote: char) | Escaped(back: Lexer)

  predicate IsSpace(c: char) { c in " \t\r\n" }

  predicate IsQuote(c: char) { c == '"' || c == '\'' }

  function Emit(token: string, quoted: bool): seq<string> {
    if token != "" || quoted then [token] else []
  }

  function Prepend(tokens: seq<string>, rest: Option<seq<string>>): Option<seq<string>> {
    if rest.None? then None else Some(tokens + rest.value)
  }

  /** `shlex.split(s)`, from a lexer state, the token read so far, and whether it had quotes; `None` is a ValueError. */
  function Split(s: string, state: Lexer, token: string, quoted: bool): Option<seq<string>>
    decreases |s|
  {
    if s == "" then
      if state.Quoted? || state.Escaped? then None else Some(Emit(token, quoted))
    else
      var c, rest := s[0], s[1..];
      match state
      case Between | Word =>
        if IsSpace(c) then Prepend(Emit(token, quoted), Split(rest, Between, "", false))
        else if c == '\\' then Split(rest, Escaped(Word), token, quoted)
        else if IsQuote(c) then Split(rest, Quoted(c), token, true)
        else Split(rest, Word, token + [c], quoted)
      case Quoted(q) =>
        if c == q then Split(rest, Word, token, true)
        else if c == '\\' && q == '"' then Split(rest, Escaped(state), token, true)
        else Split(rest, state, token + [c], true)
      case Escaped(back) =>
        var kept := if back.Quoted? && c != '\\' && c != back.quote then "\\" else "";
        Split(rest, back, token + kept + [c], quoted)
  }

  // ---------------------------------------------------------------------- busctl replies

  /** How busctl prints a string reply. */
  function BusctlString(value: string): string {
    "s \"" + value + "\""
  }

  /** `rstrip(".")` */
  function StripDots(s: string): string {
    if s != "" && s[|s| - 1] == '.' then StripDots(s[..|s| - 1]) else s
  }

  /** The name read off a GetHostNameFqdn reply; `None` when it is not a string reply or does not parse. */
  function ParseFqdn(line: string): Option<string> {
    var parts := Split(line, Between, "", false);
    if parts.Some? && |parts.value| == 2 && parts.value[0] == "s" then Some(Lower(StripDots(parts.value[1]))) else None
  }

  /** Text busctl prints inside quotes as it is. */
  predicate Plain(s: string) {
    forall i | 0 <= i < |s| :: s[i] != '"' && s[i] != '\\'
  }

  lemma {:induction false} QuotedText(text: string, rest: string, token: string)
    requires Plain(text)
    ensures Split(text + rest, Quoted('"'), token, true) == Split(rest, Quoted('"'), token + text, true)
  {
    if text == "" {
      assert text + rest == rest && token + text == token;
    } else {
      assert (text + rest)[1..] == text[1..] + rest;
      QuotedText(text[1..], rest, token + [text[0]]);
      assert token + [text[0]] + text[1..] == token + text;
    }
  }

  /** From the opening quote on, the line is one token. */
  lemma {:induction false} QuotedToken(value: string)
    requires Plain(value)
    ensures Split("\"" + value + "\"", Between, "", false) == Some([value])
  {
    var tail := value + "\"";
    assert "\"" + value + "\"" == "\"" + tail && ("\"" + tail)[1..] == tail;
    QuotedText(value, "\"", "");
    assert "" + value == value && "\""[1..] == "";
    assert Split("", Word, value, true) == Some([value]);
  }

  /** Double quotes keep any text whose quotes and backslashes are escaped. */
  function Escape(text: string): string {
    if text == "" then ""
    else (if text[0] == '"' || text[0] == '\\' then "\\" else "") + [text[0]] + Escape(text[1..])
  }

  /** A character after a backslash. */
  lemma {:induction false} AfterBackslash(c: char, rest: string, back: Lexer, token: string, quoted: bool)
    ensures Split([c] + rest, Escaped(back), token, quoted) ==
            if back.Quoted? && c != '\\' && c != back.quote then Split(rest, back, token + ['\\', c], quoted)
            else Split(rest, back, token + [c], quoted)
  {
    assert ([c] + rest)[1..] == rest;
    assert token + "\\" + [c] == token + ['\\', c] && token + "" + [c] == token + [c];
  }

  /** A character in double quotes that does not close them. */
  lemma {:induction false} InQuotes(c: char, rest: string, token: string)
    requires c != '"'
    ensures Split([c] + rest, Quoted('"'), token, true) ==
            if c == '\\' then Split(rest, Escaped(Quoted('"')), token, true) else Split(rest, Quoted('"'), token + [c],
                                                  true)
  {
    assert ([c] + rest)[1..] == rest;
  }

  lemma {:induction false} EscapeNothing()
    ensures Escape("") == ""
  {
  }

  lemma {:induction false} EscapeHead(text: string, rest: string)
    requires text != ""
    ensures var c, more := text[0], Escape(text[1..]) + rest;
            Escape(text) + rest == if c == '"' || c == '\\' then ['\\'] + ([c] + more) else [c] + more
  {
    var tail := Escape(text[1..]);
    hide Escape;
    assert "" + [text[0]] + tail + rest == [text[0]] + (tail + rest);
    assert "\\" + [text[0]] + tail + rest == ['\\'] + ([text[0]] + (tail + rest));
  }

  lemma {:induction false} EscapedText(text: string, rest: string, token: string)
    ensures Split(Escape(text) + rest, Quoted('"'), token, true) == Split(rest, Quoted('"'), token + text, true)
  {
    hide Split, Escape;
    if text == "" {
      EscapeNothing();
      assert Escape(text) + rest == rest && token + text == token;
    } else {
      var c, more := text[0], Escape(text[1..]) + rest;
      assert token + [c] + text[1..] == token + text;
      EscapedText(text[1..], rest, token + [c]);
      EscapeHead(text, rest);
      if c == '"' || c == '\\' {
        InQuotes('\\', [c] + more, token);
        AfterBackslash(c, more, Quoted('"'), token, true);
      } else {
        InQuotes(c, more, token);
      }
    }
  }

  lemma {:induction false} SingleQuotedText(text: string, rest: string, token: string)
    requires forall i | 0 <= i < |text| :: text[i] != '\''
    ensures Split(text + rest, Quoted('\''), token, true) == Split(rest, Quoted('\''), token + text, true)
  {
    if text == "" {
      assert text + rest == rest && token + text == token;
    } else {
      assert (text + rest)[1..] == text[1..] + rest;
      SingleQuotedText(text[1..], rest, token + [text[0]]);
      assert token + [text[0]] + text[1..] == token + text;
    }
  }

  /** The opening quote. */
  lemma {:induction false} Opens(quote: char, rest: string)
    requires IsQuote(quote)
    ensures Split([quote] + rest, Between, "", false) == Split(rest, Quoted(quote), "", true)
  {
    assert ([quote] + rest)[1..] == rest;
  }

  /** The closing quote, at the end. */
  lemma {:induction false} Closes(quote: char, token: string)
    ensures Split([quote], Quoted(quote), token, true) == Some([token])
  {
    assert Split("", Word, token, true) == Some([token]);
  }

  /** Double quotes keep any escaped text; a backslash before anything else in them stays. */
  lemma {:induction false} DoubleQuotesReadBack(text: string, c: char)
    requires c != '"' && c != '\\'
    ensures Split("\"" + Escape(text) + "\"", Between, "", false) == Some([text])
    ensures Split("\"\\" + [c] + "\"", Between, "", false) == Some([['\\', c]])
  {
    hide Split;
    assert "\"" + Escape(text) + "\"" == ['"'] + (Escape(text) + "\"") && "" + text == text;
    Opens('"', Escape(text) + "\"");
    EscapedText(text, "\"", "");
    Closes('"', text);
    assert "\"\\" + [c] + "\"" == ['"'] + (['\\'] + ([c] + "\"")) && "" + ['\\', c] == ['\\', c];
    Opens('"', ['\\'] + ([c] + "\""));
    InQuotes('\\', [c] + "\"", "");
    AfterBackslash(c, "\"", Quoted('"'), "", true);
    Closes('"', ['\\', c]);
  }

  /**
   Single quotes keep any text but a single quote, verbatim; outside of quotes a backslash keeps the next
   character.
   */
  lemma {:induction false} OthersReadBack(text: string, c: char)
    requires forall i | 0 <= i < |text| :: text[i] != '\''
    ensures Split("'" + text + "'", Between, "", false) == Some([text])
    ensures Split("\\" + [c], Between, "", false) == Some([[c]])
    ensures Split("\\", Between, "", false) == None
  {
    assert "'" + text + "'" == ['\''] + (text + "'") && "" + text == text;
    Opens('\'', text + "'");
    SingleQuotedText(text, "'", "");
    Closes('\'', text);
    assert ("\\" + [c])[1..] == [c] && [c] + "" == [c] && "" + [c] == [c];
    AfterBackslash(c, "", Word, "", false);
    assert "\\"[1..] == "" && Split("", Escaped(Word), "", false) == None;
    assert Split("", Word, [c], false) == Some([[c]]);
  }

  /** Text that is neither blank nor quoted. */
  predicate Bare(s: string) {
    forall i | 0 <= i < |s| :: !IsSpace(s[i]) && s[i] != '\\' && s[i] != '"' && s[i] != '\''
  }

  lemma {:induction false} BareText(text: string, rest: string, token: string)
    requires Bare(text)
    ensures Split(text + rest, Word, token, false) == Split(rest, Word, token + text, false)
  {
    if text == "" {
      assert text + rest == rest && token + text == token;
    } else {
      assert (text + rest)[1..] == text[1..] + rest;
      BareText(text[1..], rest, token + [text[0]]);
      assert token + [text[0]] + text[1..] == token + text;
    }
  }

  /** Only a reply of type s is a name, and only if its quotes are closed. */
  lemma {:induction false} OtherRepliesRejected(kind: string, value: string)
    requires kind != "" && Bare(kind) && Plain(value)
    ensures ParseFqdn(kind + " \"" + value + "\"") == if kind == "s" then Some(Lower(StripDots(value))) else None
    ensures ParseFqdn(kind + " \"" + value) == None && ParseFqdn(kind) == None
  {
    hide Split, Lower, StripDots;
    assert kind + " \"" + value + "\"" == kind + (" " + ("\"" + value + "\""));
    FirstToken(kind, ' ', "\"" + value + "\"");
    QuotedToken(value);
    assert kind + " \"" + value == kind + (" " + ("\"" + value));
    FirstToken(kind, ' ', "\"" + value);
    OpenQuote(value);
    OnlyToken(kind);
    assert [kind] + [value] == [kind, value];
  }

  /** A bare word, a blank, and the rest. */
  lemma {:induction false} FirstToken(kind: string, blank: char, rest: string)
    requires kind != "" && Bare(kind) && (blank == ' ' || blank == '\t' || blank == '\r' || blank == '\n')
    ensures Split(kind + ([blank] + rest), Between, "", false) == Prepend([kind], Split(rest, Between, "", false))
  {
    FromTheStart(kind, [blank] + rest);
    BareText(kind, [blank] + rest, "");
    assert ([blank] + rest)[1..] == rest && "" + kind == kind;
  }

  lemma {:induction false} OnlyToken(kind: string)
    requires kind != "" && Bare(kind)
    ensures Split(kind, Between, "", false) == Some([kind])
  {
    assert kind + "" == kind && "" + kind == kind;
    FromTheStart(kind, "");
    BareText(kind, "", "");
    assert Split("", Word, kind, false) == Some([kind]);
  }

  lemma {:induction false} OpenQuote(value: string)
    requires Plain(value)
    ensures Split("\"" + value, Between, "", false) == None
  {
    assert "\"" + value == ['"'] + value && value + "" == value && "" + value == value;
    Opens('"', value);
    QuotedText(value, "", "");
    assert Split("", Quoted('"'), value, true) == None;
  }

  /** Between tokens, a bare character starts one. */
  lemma {:induction false} FromTheStart(kind: string, rest: string)
    requires kind != "" && Bare(kind)
    ensures Split(kind + rest, Between, "", false) == Split(kind + rest, Word, "", false)
  {
  }

  /** Reading back what busctl printed. */
  lemma {:induction false} ParseBusctl(value: string)
    requires Plain(value)
    ensures ParseFqdn(BusctlString(value)) == Some(Lower(StripDots(value)))
  {
    var line, quoted := BusctlString(value), "\"" + value + "\"";
    QuotedToken(value);
    assert line[1..] == " " + quoted && (" " + quoted)[1..] == quoted;
    assert "" + ['s'] == "s";
    assert Split(" " + quoted, Word, "s", false) == Some(["s"] + [value]);
  }

  /** What is stripped is all trailing dots, and nothing else. */
  lemma {:induction false} StripExact(s: string)
    ensures var t := StripDots(s);
            && t <= s && (forall i | |t| <= i < |s| :: s[i] == '.')
            && (t == "" || t[|t| - 1] != '.')
  {
    if s != "" && s[|s| - 1] == '.' {
      StripExact(s[..|s| - 1]);
    }
  }

  lemma {:induction false} StripAll(s: string, dots: string)
    requires s != "" && s[|s| - 1] != '.'
    requires forall i | 0 <= i < |dots| :: dots[i] == '.'
    ensures StripDots(s + dots) == s
  {
    if dots == "" {
      assert s + dots == s;
    } else {
      assert (s + dots)[..|s + dots| - 1] == s + dots[..|dots| - 1];
      StripAll(s, dots[..|dots| - 1]);
    }
  }

  /** For every valid name, busctl's line with any trailing dots reads back as the lower-cased name.local. */
  lemma {:induction false} FqdnRoundTrip(name: string, dots: string)
    requires ValidHostname(name)
    requires forall i | 0 <= i < |dots| :: dots[i] == '.'
    ensures ParseFqdn(BusctlString(name + ".local" + dots)) == Some(Lower(name) + ".local")
  {
    PatternAcceptsLabels(name);
    var fqdn := name + ".local";
    assert forall i | 0 <= i < |name| :: fqdn[i] == name[i];
    ParseBusctl(fqdn + dots);
    StripAll(fqdn, dots);
    assert Lower(fqdn) == Lower(name) + ".local";
  }
}
