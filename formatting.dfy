/** The part of Python's `str.format` that the cog's message getter reaches:
    `template.format(users=U, guilds=G)`. Literal text is copied, `{{` and `}}`
    stand for one brace, `{users}` and `{guilds}` become the decimal counts,
    and every other use of a brace raises. */
module Formatting {
  import opened Results
  import opened PyStr

  /** Why `str.format` raised. */
  datatype FormatError =
    | SingleOpenBrace          // a `{` at the very end of the template
    | SingleCloseBrace         // a `}` that is not part of `}}` or of a field
    | UnclosedField            // a `{` with no `}` after it
    | UnknownField(name: string)  // a field other than `users` or `guilds`

  /** The number a string of decimal digits spells, most significant first. */
  function DigitsValue(s: string): int
  {
    if s == [] then 0
    else DigitsValue(s[..|s| - 1]) * 10 + (s[|s| - 1] as int - '0' as int)
  }

  /** Python's `str` of a non-negative integer: its decimal digits, which spell
      `n`, with no leading zero. */
  function Decimal(n: nat): (r: string)
    ensures |r| >= 1
    ensures forall i :: 0 <= i < |r| ==> '0' <= r[i] <= '9'
    ensures DigitsValue(r) == n
    ensures |r| > 1 ==> r[0] != '0'
    decreases n
  {
    if n < 10 then ["0123456789"[n]]
    else
      var front := Decimal(n / 10);
      var r := front + ["0123456789"[n % 10]];
      assert r[..|r| - 1] == front;
      r
  }

  predicate BraceFree(s: string)
  {
    '{' !in s && '}' !in s
  }

  /** A concatenation is brace-free exactly when both parts are. */
  lemma BraceFreeAppend(a: string, b: string)
    ensures BraceFree(a + b) <==> BraceFree(a) && BraceFree(b)
  {
    assert forall c :: c in a + b <==> c in a || c in b;
  }

  /** Put `p` in front of a successful result; keep an error as it is. */
  function Prepend(p: string, r: Result<string, FormatError>): Result<string, FormatError>
  {
    match r
    case Ok(v) => Ok(p + v)
    case Err(e) => Err(e)
  }

  /** `s.format(users=users, guilds=guilds)`, scanned from left to right; the
      first malformed brace decides the error. */
  function Format(s: string, users: nat, guilds: nat): Result<string, FormatError>
    decreases |s|
  {
    if s == [] then Ok([])
    else if s[0] == '{' then
      if |s| == 1 then Err(SingleOpenBrace)
      else if s[1] == '{' then Prepend("{", Format(s[2..], users, guilds))
      else
        var parts := SplitOnce(s[1..], '}');
        if |parts| == 1 then Err(UnclosedField)
        else if parts[0] == "users" then Prepend(Decimal(users), Format(parts[1], users, guilds))
        else if parts[0] == "guilds" then Prepend(Decimal(guilds), Format(parts[1], users, guilds))
        else Err(UnknownField(parts[0]))
    else if s[0] == '}' then
      if |s| >= 2 && s[1] == '}' then Prepend("}", Format(s[2..], users, guilds))
      else Err(SingleCloseBrace)
    else Prepend([s[0]], Format(s[1..], users, guilds))
  }

  /** A brace-free template formats to itself, whatever the counts. */
  lemma {:induction false} FormatBraceFree(s: string, users: nat, guilds: nat)
    requires BraceFree(s)
    ensures Format(s, users, guilds) == Ok(s)
    decreases |s|
  {
    if s != [] {
      FormatBraceFree(s[1..], users, guilds);
      assert [s[0]] + s[1..] == s;
    }
  }

  /** Brace-free text in front of a template is copied unchanged in front of
      the result, and the rest formats on its own. */
  lemma {:induction false} FormatLiteralPrefix(p: string, s: string, users: nat, guilds: nat)
    requires BraceFree(p)
    ensures Format(p + s, users, guilds) == Prepend(p, Format(s, users, guilds))
    decreases |p|
  {
    if p == [] {
      assert p + s == s;
      match Format(s, users, guilds)
      case Ok(v) => assert p + v == v;
      case Err(_) =>
    } else {
      assert (p + s)[1..] == p[1..] + s;
      FormatLiteralPrefix(p[1..], s, users, guilds);
      match Format(s, users, guilds)
      case Ok(v) => assert [p[0]] + (p[1..] + v) == p + v;
      case Err(_) =>
    }
  }

  /** `{users}` and `{guilds}` are replaced by the decimal counts. */
  lemma FormatField(s: string, users: nat, guilds: nat)
    ensures Format("{users}" + s, users, guilds) == Prepend(Decimal(users), Format(s, users, guilds))
    ensures Format("{guilds}" + s, users, guilds) == Prepend(Decimal(guilds), Format(s, users, guilds))
  {
    assert ("{users}" + s)[1..] == "users" + ['}'] + s;
    SplitOnceUnique("users", s, '}');
    assert ("{guilds}" + s)[1..] == "guilds" + ['}'] + s;
    SplitOnceUnique("guilds", s, '}');
  }

  /** Any other plain field name (no conversion `!`, format specification `:`
      or attribute access `.`) raises, naming the field. */
  lemma FormatUnknownField(name: string, s: string, users: nat, guilds: nat)
    requires '}' !in name
    requires '!' !in name && ':' !in name && '.' !in name
    requires name != "users" && name != "guilds"
    requires name == [] || name[0] != '{'
    ensures Format("{" + name + "}" + s, users, guilds) == Err(UnknownField(name))
  {
    assert ("{" + name + "}" + s)[1..] == name + ['}'] + s;
    SplitOnceUnique(name, s, '}');
  }

  /** A closing brace that is not doubled raises. */
  lemma FormatSingleCloseBrace(p: string, s: string, users: nat, guilds: nat)
    requires BraceFree(p)
    requires s == [] || s[0] != '}'
    ensures Format(p + "}" + s, users, guilds) == Err(SingleCloseBrace)
  {
    assert p + "}" + s == p + ("}" + s);
    FormatLiteralPrefix(p, "}" + s, users, guilds);
  }

  /** A `{` with no `}` anywhere after it raises. */
  lemma FormatUnclosedField(p: string, s: string, users: nat, guilds: nat)
    requires BraceFree(p)
    requires '}' !in s
    requires s != [] && s[0] != '{'
    ensures Format(p + "{" + s, users, guilds) == Err(UnclosedField)
  {
    assert p + "{" + s == p + ("{" + s);
    assert ("{" + s)[1..] == s;
    FormatLiteralPrefix(p, "{" + s, users, guilds);
  }

  /** Doubling every brace: the text a template must contain to format to `s`. */
  function Escape(s: string): string
  {
    if s == [] then []
    else (if s[0] == '{' || s[0] == '}' then [s[0], s[0]] else [s[0]]) + Escape(s[1..])
  }

  /** `{{` and `}}` undo the doubling: an escaped text formats back to itself. */
  lemma {:induction false} FormatEscape(s: string, users: nat, guilds: nat)
    ensures Format(Escape(s), users, guilds) == Ok(s)
    decreases |s|
  {
    if s != [] {
      var e := Escape(s);
      FormatEscape(s[1..], users, guilds);
      if s[0] == '{' || s[0] == '}' {
        assert e[2..] == Escape(s[1..]);
      } else {
        assert e[1..] == Escape(s[1..]);
      }
      assert [s[0]] + s[1..] == s;
    }
  }
}
