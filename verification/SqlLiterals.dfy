/**
 * SQL string literals as the feature source writes them: every property value
 * is quoted by DatabaseUtils.sqlEscapeString (single quotes around the text,
 * each embedded single quote doubled), and a geometry is wrapped in
 * ST_GeomFromText('<wkt>').
 *
 * The partner of the escaping is a reader of SQL string literals, as the
 * database parses them: it proves that an escaped value is read back whole and
 * that the literal ends exactly where the escaped text ends, so no value can
 * close the literal early.
 */
module SqlLiterals {
  import opened Wrappers

  const Quote: char := '\''

  /** The text between the quotes: each single quote doubled. */
  function DoubleQuotes(s: string): (r: string)
    ensures |r| >= |s|
  {
    if s == [] then []
    else (if s[0] == Quote then [Quote, Quote] else [s[0]]) + DoubleQuotes(s[1..])
  }

  /** DatabaseUtils.sqlEscapeString applied to an already stringified value. */
  function SqlEscape(s: string): (r: string)
    ensures |r| >= 2
  {
    [Quote] + DoubleQuotes(s) + [Quote]
  }

  /** An escaped value is one literal: it opens and closes with a single quote. */
  lemma EscapeIsQuoted(s: string)
    ensures var r := SqlEscape(s); r[0] == Quote && r[|r| - 1] == Quote
  {
  }

  /** The spatial constructor the INSERT and UPDATE fragments emit for a geometry. */
  function GeomFromText(wkt: string): string
  {
    "ST_GeomFromText('" + wkt + "')"
  }

  /** Reads the body of a string literal whose opening quote has been consumed:
      a doubled quote stands for one quote, a single quote closes the literal.
      Returns the text and what follows the closing quote, or None when the
      literal is never closed. */
  function ReadQuoted(s: string): (r: Option<(string, string)>)
    ensures r.Some? ==> |r.value.1| < |s|
    decreases |s|
  {
    if s == [] then None
    else if s[0] == Quote then
      if |s| > 1 && s[1] == Quote then
        match ReadQuoted(s[2..])
        case Some(p) => Some(([Quote] + p.0, p.1))
        case None => None
      else Some(([], s[1..]))
    else
      match ReadQuoted(s[1..])
      case Some(p) => Some(([s[0]] + p.0, p.1))
      case None => None
  }

  /** Reads a string literal at the start of s: its text and what follows it. */
  function ReadLiteral(s: string): (r: Option<(string, string)>)
    ensures r.Some? ==> |r.value.1| < |s|
  {
    if s != [] && s[0] == Quote then ReadQuoted(s[1..]) else None
  }

  /** Whether t cannot continue a literal that has just been closed. */
  predicate NoQuoteAhead(t: string)
  {
    t == [] || t[0] != Quote
  }

  lemma {:induction false} ReadQuotedDoubled(s: string, rest: string)
    requires NoQuoteAhead(rest)
    ensures ReadQuoted(DoubleQuotes(s) + [Quote] + rest) == Some((s, rest))
  {
    if s == [] {
      assert DoubleQuotes(s) + [Quote] + rest == [Quote] + rest;
    } else {
      var tail := DoubleQuotes(s[1..]) + [Quote] + rest;
      ReadQuotedDoubled(s[1..], rest);
      assert s == [s[0]] + s[1..];
      if s[0] == Quote {
        var u := [Quote, Quote] + tail;
        assert DoubleQuotes(s) + [Quote] + rest == u;
        assert u[2..] == tail;
        assert ReadQuoted(u) == Some(([Quote] + s[1..], rest));
      } else {
        var u := [s[0]] + tail;
        assert DoubleQuotes(s) + [Quote] + rest == u;
        assert u[1..] == tail;
        assert ReadQuoted(u) == Some(([s[0]] + s[1..], rest));
      }
    }
  }

  /** Escaping safety: the literal SqlEscape(s) is read back as exactly s, and it
      ends where the escaped text ends, whatever s contains. */
  lemma EscapeRoundTrip(s: string, rest: string)
    requires NoQuoteAhead(rest)
    ensures ReadLiteral(SqlEscape(s) + rest) == Some((s, rest))
  {
    ReadQuotedDoubled(s, rest);
    assert (SqlEscape(s) + rest)[1..] == DoubleQuotes(s) + [Quote] + rest;
  }

  /** The text of O'Hara between the quotes. */
  lemma DoubleQuotesExample()
    ensures DoubleQuotes("O'Hara") == "O''Hara"
  {
    assert DoubleQuotes("a") == "a" by { assert "a"[1..] == ""; }
    assert DoubleQuotes("ra") == "ra" by { assert "ra"[1..] == "a"; }
    assert DoubleQuotes("ara") == "ara" by { assert "ara"[1..] == "ra"; }
    assert DoubleQuotes("Hara") == "Hara" by { assert "Hara"[1..] == "ara"; }
    assert DoubleQuotes("'Hara") == "''Hara" by { assert "'Hara"[1..] == "Hara"; }
    assert DoubleQuotes("O'Hara") == "O''Hara" by { assert "O'Hara"[1..] == "'Hara"; }
  }

  /** A quote inside a value is doubled, never left alone. */
  lemma EscapeExample()
    ensures SqlEscape("O'Hara") == "'O''Hara'"
  {
    DoubleQuotesExample();
  }

}
