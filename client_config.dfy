/** The pure decisions inside the client's configuration prompts
    (client/src/main.rs, `get_config`): trimming the typed lines and turning
    the password line into an optional password. Reading and writing the
    configuration file and the terminal are not modelled. */
module ClientConfig {
  import opened Common

  /** Rust's `char::is_whitespace`: the Unicode White_Space property. */
  predicate IsWhitespace(c: char)
  {
    || '\U{9}' <= c <= '\U{D}'
    || c == ' ' || c == '\U{85}' || c == '\U{A0}' || c == '\U{1680}'
    || '\U{2000}' <= c <= '\U{200A}'
    || c == '\U{2028}' || c == '\U{2029}' || c == '\U{202F}' || c == '\U{205F}' || c == '\U{3000}'
  }

  /** `str::trim_start`: the longest suffix that does not start with whitespace. */
  function TrimStart(s: string): (t: string)
    ensures |t| <= |s| && t == s[|s| - |t|..]
    ensures t == [] || !IsWhitespace(t[0])
    ensures forall i :: 0 <= i < |s| - |t| ==> IsWhitespace(s[i])
  {
    if s != [] && IsWhitespace(s[0]) then TrimStart(s[1..]) else s
  }

  /** `str::trim_end`: the longest prefix that does not end with whitespace. */
  function TrimEnd(s: string): (t: string)
    ensures |t| <= |s| && t == s[..|t|]
    ensures t == [] || !IsWhitespace(t[|t| - 1])
    ensures forall i :: |t| <= i < |s| ==> IsWhitespace(s[i])
  {
    if s != [] && IsWhitespace(s[|s| - 1]) then TrimEnd(s[..|s| - 1]) else s
  }

  /** `str::trim`: whitespace removed from both ends. The result is the
      slice of the line between a whitespace prefix and a whitespace suffix;
      it is empty exactly when the line is blank, and otherwise starts and
      ends with a character that is not whitespace. */
  function Trim(s: string): (t: string)
    ensures |t| <= |s|
    ensures exists a, b ::
              && 0 <= a <= b <= |s| && t == s[a..b]
              && (forall i :: 0 <= i < a ==> IsWhitespace(s[i]))
              && (forall i :: b <= i < |s| ==> IsWhitespace(s[i]))
    ensures t == [] <==> forall i :: 0 <= i < |s| ==> IsWhitespace(s[i])
    ensures t != [] ==> !IsWhitespace(t[0]) && !IsWhitespace(t[|t| - 1])
  {
    var u := TrimStart(s);
    var t := TrimEnd(u);
    var a := |s| - |u|;
    assert t == s[a..a + |t|];
    assert t != [] ==> !IsWhitespace(t[0]) by {
      if t != [] {
        assert t[0] == u[0];
      }
    }
    t
  }

  /** Trimming twice is trimming once. */
  lemma TrimIdempotent(s: string)
    ensures Trim(Trim(s)) == Trim(s)
  {
    var t := Trim(s);
    assert TrimStart(t) == t;
    assert TrimEnd(t) == t;
  }

  /** The password prompt as the source writes it: a blank line yields the
      untrimmed line as the password, and any other line yields none. */
  function PromptedPasswdAsWritten(line: string): (p: Option<string>)
    ensures p.Some? <==> forall i :: 0 <= i < |line| ==> IsWhitespace(line[i])
    ensures p.Some? ==> p.value == line
  {
    if Trim(line) == [] then Some(line) else None
  }

  /** The inversion, on two lines: an empty answer becomes a password made of
      the line break, and a typed password is dropped. */
  lemma PasswdPromptInverted()
    ensures PromptedPasswdAsWritten("\n") == Some("\n")
    ensures PromptedPasswdAsWritten("secret\n") == None
  {
  }

  /** The password prompt as its comment intends: a blank line means no
      password, and any other line is the password, trimmed like the other
      two answers. */
  function PromptedPasswd(line: string): (p: Option<string>)
    ensures p.None? <==> forall i :: 0 <= i < |line| ==> IsWhitespace(line[i])
    ensures p.Some? ==> p.value == Trim(line) && p.value != []
    ensures p.Some? ==> !IsWhitespace(p.value[0]) && !IsWhitespace(p.value[|p.value| - 1])
  {
    var t := Trim(line);
    if t == [] then None else Some(t)
  }

  /** The client's configuration. */
  datatype Config = Config(account: string, passwd: Option<string>, apiUrl: string)

  /** The configuration `get_config` builds from the three answers typed at
      the prompts: the account and API URL answers trimmed, and the password
      as line 128 decides it, so that it is present exactly when its answer
      is blank, and is then that answer untrimmed. */
  function ConfigFromPrompts(accountLine: string, passwdLine: string, apiUrlLine: string): (c: Config)
    ensures c.account == Trim(accountLine) && c.apiUrl == Trim(apiUrlLine)
    ensures c.passwd.Some? <==> forall i :: 0 <= i < |passwdLine| ==> IsWhitespace(passwdLine[i])
    ensures c.passwd.Some? ==> c.passwd.value == passwdLine
  {
    Config(Trim(accountLine), PromptedPasswdAsWritten(passwdLine), Trim(apiUrlLine))
  }

  /** The configuration as the password prompt intends it: the same trimmed
      account and API URL, and no password exactly when its answer is blank. */
  function IntendedConfigFromPrompts(accountLine: string, passwdLine: string, apiUrlLine: string): (c: Config)
    ensures c.account == Trim(accountLine) && c.apiUrl == Trim(apiUrlLine)
    ensures c.passwd.None? <==> forall i :: 0 <= i < |passwdLine| ==> IsWhitespace(passwdLine[i])
    ensures c.passwd.Some? ==> c.passwd.value == Trim(passwdLine)
  {
    Config(Trim(accountLine), PromptedPasswd(passwdLine), Trim(apiUrlLine))
  }

  /** The two configurations differ in the password alone, and always do. */
  lemma ConfigsDifferInPasswd(accountLine: string, passwdLine: string, apiUrlLine: string)
    ensures var written, intended := ConfigFromPrompts(accountLine, passwdLine, apiUrlLine),
                                     IntendedConfigFromPrompts(accountLine, passwdLine, apiUrlLine);
      written.account == intended.account && written.apiUrl == intended.apiUrl &&
      written.passwd.Some? != intended.passwd.Some?
  {
  }
}
