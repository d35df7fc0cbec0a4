/** Quoting of configuration strings by setup.rs, and reading them back as TOML basic strings. */
module Toml {
  import opened Common

  /** `str::replace` of one character by a string. */
  function Replace(s: string, c: char, with: string): string {
    if s == [] then [] else (if s[0] == c then with else [s[0]]) + Replace(s[1..], c, with)
  }

  /** `toml_string`: backslashes first, then quotes, then the surrounding quotes. */
  function TomlString(s: string): string {
    "\"" + Replace(Replace(s, '\\', "\\\\"), '"', "\\\"") + "\""
  }

  /** One pass over the characters. */
  function Escape(s: string): string {
    if s == [] then []
    else (if s[0] == '\\' then "\\\\" else if s[0] == '"' then "\\\"" else [s[0]]) + Escape(s[1..])
  }

  lemma Assoc(a: string, b: string, c: string)
    ensures (a + b) + c == a + (b + c)
  {
  }

  lemma ReplaceCons(x: char, s: string, c: char, with: string)
    ensures Replace([x] + s, c, with) == (if x == c then with else [x]) + Replace(s, c, with)
  {
    assert ([x] + s)[1..] == s;
  }

  lemma {:induction false} ReplaceConcat(a: string, b: string, c: char, with: string)
    ensures Replace(a + b, c, with) == Replace(a, c, with) + Replace(b, c, with)
  {
    if a == [] {
      assert a + b == b;
    } else {
      var x, rest := a[0], a[1..];
      assert a == [x] + rest;
      Assoc([x], rest, b);
      ReplaceCons(x, rest, c, with);
      ReplaceCons(x, rest + b, c, with);
      ReplaceConcat(rest, b, c, with);
      Assoc(if x == c then with else [x], Replace(rest, c, with), Replace(b, c, with));
    }
  }

  /** The order of the two replacements is right: together they are the one-pass escape. */
  lemma {:induction false} TwoPassesAreOne(s: string)
    ensures Replace(Replace(s, '\\', "\\\\"), '"', "\\\"") == Escape(s)
  {
    if s != [] {
      TwoPassesAreOne(s[1..]);
      var head := if s[0] == '\\' then "\\\\" else [s[0]];
      ReplaceConcat(head, Replace(s[1..], '\\', "\\\\"), '"', "\\\"");
      if s[0] == '\\' {
        assert head[1..] == "\\" && head[1..][1..] == "";
      } else {
        assert head[1..] == "";
      }
    }
  }

  /** Control characters that a basic string may not contain; tab is allowed. */
  predicate Forbidden(c: char) {
    (c < ' ' && c != '\t') || c == 127 as char
  }

  /** The content of a basic string up to its closing quote, which must end the text. */
  function ReadBasic(s: string): Option<string> {
    if s == [] || Forbidden(s[0]) then None
    else if s[0] == '"' then (if |s| == 1 then Some([]) else None)
    else if s[0] == '\\' then
      if |s| < 2 || (s[1] != '\\' && s[1] != '"') then None
      else Prefix(s[1], ReadBasic(s[2..]))
    else Prefix(s[0], ReadBasic(s[1..]))
  }

  function Prefix(c: char, r: Option<string>): Option<string> {
    if r.None? then None else Some([c] + r.value)
  }

  /** A quoted basic string, read with the escapes that quoting writes. */
  function Unquote(s: string): Option<string> {
    if s == [] || s[0] != '"' then None else ReadBasic(s[1..])
  }

  predicate Clean(s: string) {
    forall i :: 0 <= i < |s| ==> !Forbidden(s[i])
  }

  lemma {:induction false} EscapedReadsBack(s: string)
    ensures ReadBasic(Escape(s) + "\"") == if Clean(s) then Some(s) else None
  {
    if s == [] {
      assert Escape(s) + "\"" == "\"";
    } else {
      EscapedReadsBack(s[1..]);
      assert s == [s[0]] + s[1..];
      assert Clean(s) <==> !Forbidden(s[0]) && Clean(s[1..]);
      var rest := Escape(s[1..]) + "\"";
      if s[0] == '\\' || s[0] == '"' {
        var two := if s[0] == '\\' then "\\\\" else "\\\"";
        assert Escape(s) + "\"" == two + rest;
        assert (two + rest)[2..] == rest;
      } else {
        assert Escape(s) + "\"" == [s[0]] + rest;
        assert ([s[0]] + rest)[1..] == rest;
      }
    }
  }

  /** Quoting is undone by reading exactly for the strings without forbidden control characters. */
  lemma QuotedReadsBackIff(s: string)
    ensures Unquote(TomlString(s)) == if Clean(s) then Some(s) else None
    ensures Unquote(TomlString(s)) == Some(s) <==> Clean(s)
  {
    TwoPassesAreOne(s);
    EscapedReadsBack(s);
    assert TomlString(s) == "\"" + (Escape(s) + "\"");
    assert TomlString(s)[1..] == Escape(s) + "\"";
  }
}
