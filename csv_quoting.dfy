/**
 * Cell quoting as the formatter does it (`str_replace('"', '""', $cell)` wrapped in
 * quotes), and the reading direction that undoes it: unquoting one cell and
 * splitting a fully quoted row back into its cells.
 */
module CsvQuoting {
  import opened Wrappers
  import opened PhpText

  const Quote: char := '"'

  /** `str_replace('"', '""', s)`: every double quote doubled, nothing else touched. */
  function Escape(s: string): string
  {
    if |s| == 0 then ""
    else (if s[0] == Quote then [Quote, Quote] else [s[0]]) + Escape(s[1..])
  }

  /** One quoted cell: the escaped text between a pair of double quotes. */
  function QuoteCell(s: string): string
  {
    [Quote] + Escape(s) + [Quote]
  }

  /** Every cell quoted, in order (the `array_walk` over the row). */
  function QuoteAll(cells: seq<string>): (r: seq<string>)
    ensures |r| == |cells|
    ensures forall i :: 0 <= i < |cells| ==> r[i] == QuoteCell(cells[i])
  {
    if |cells| == 0 then [] else [QuoteCell(cells[0])] + QuoteAll(cells[1..])
  }

  /** Collapses each `""` back to `"`. */
  function Unescape(s: string): string
  {
    if |s| >= 2 && s[0] == Quote && s[1] == Quote then [Quote] + Unescape(s[2..])
    else if |s| == 0 then ""
    else [s[0]] + Unescape(s[1..])
  }

  /** Strips the outer quotes of a cell and collapses the doubled quotes inside. */
  function Unquote(q: string): Option<string>
  {
    if |q| >= 2 && q[0] == Quote && q[|q| - 1] == Quote then Some(Unescape(q[1..|q| - 1]))
    else None
  }

  /** Escaping works character by character, so it distributes over concatenation. */
  lemma {:induction false} EscapeConcat(a: string, b: string)
    ensures Escape(a + b) == Escape(a) + Escape(b)
  {
    if |a| > 0 {
      assert (a + b)[0] == a[0] && (a + b)[1..] == a[1..] + b;
      EscapeConcat(a[1..], b);
    } else {
      assert a + b == b;
    }
  }

  /** Escaping adds quote characters and nothing else: a text and its escape hold the same characters. */
  lemma {:induction false} EscapeKeepsCharacters(s: string, c: char)
    ensures c in Escape(s) <==> c in s
  {
    if |s| > 0 {
      EscapeKeepsCharacters(s[1..], c);
      assert s == [s[0]] + s[1..];
    }
  }

  /** A quoted cell holds the characters of the cell, besides quotes. */
  lemma QuoteCellCharacters(s: string, c: char)
    requires c != Quote
    ensures c in QuoteCell(s) <==> c in s
  {
    EscapeKeepsCharacters(s, c);
  }

  /** A cell without quotes is escaped to itself. */
  lemma {:induction false} EscapeWithoutQuotes(s: string)
    requires Quote !in s
    ensures Escape(s) == s
  {
    if |s| > 0 {
      EscapeWithoutQuotes(s[1..]);
      assert [s[0]] + s[1..] == s;
    }
  }

  lemma {:induction false} UnescapeEscape(s: string)
    ensures Unescape(Escape(s)) == s
  {
    if |s| > 0 {
      UnescapeEscape(s[1..]);
      var e := Escape(s);
      if s[0] == Quote {
        assert e == [Quote, Quote] + Escape(s[1..]);
        assert e[2..] == Escape(s[1..]);
      } else {
        assert e == [s[0]] + Escape(s[1..]);
        assert e[1..] == Escape(s[1..]);
      }
    }
  }

  /** Unquoting a quoted cell gives back the cell. */
  lemma UnquoteQuoteCell(s: string)
    ensures Unquote(QuoteCell(s)) == Some(s)
  {
    var q := QuoteCell(s);
    assert q[1..|q| - 1] == Escape(s);
    UnescapeEscape(s);
  }

  /** Adds a character in front of the field of a parse result. */
  function Prepend(c: char, p: Option<(string, string)>): Option<(string, string)>
  {
    match p
    case None => None
    case Some((f, rest)) => Some(([c] + f, rest))
  }

  /**
   * Reads the body of a quoted field, just after its opening quote: `""` stands for one
   * quote and a lone quote closes the field. Gives the field and what follows.
   */
  function ParseField(s: string): (r: Option<(string, string)>)
    ensures r.Some? ==> |r.value.1| < |s|
  {
    if |s| == 0 then None
    else if s[0] == Quote then
      if |s| >= 2 && s[1] == Quote then Prepend(Quote, ParseField(s[2..]))
      else Some(("", s[1..]))
    else Prepend(s[0], ParseField(s[1..]))
  }

  /** One or more quoted fields separated by `sep`, covering all of `s`. */
  function ParseFields(s: string, sep: string): Option<seq<string>>
    requires |sep| > 0
    decreases |s|
  {
    if |s| == 0 || s[0] != Quote then None
    else
      match ParseField(s[1..])
      case None => None
      case Some((f, rest)) =>
        if |rest| == 0 then Some([f])
        else if sep <= rest then
          match ParseFields(rest[|sep|..], sep)
          case None => None
          case Some(fs) => Some([f] + fs)
        else None
  }

  /** A fully quoted row: no cells for the empty line, else quoted fields separated by `sep`. */
  function ParseQuotedRow(s: string, sep: string): Option<seq<string>>
    requires |sep| > 0
  {
    if |s| == 0 then Some([]) else ParseFields(s, sep)
  }

  lemma {:induction false} ParseFieldEscape(c: string, rest: string)
    requires |rest| == 0 || rest[0] != Quote
    ensures ParseField(Escape(c) + [Quote] + rest) == Some((c, rest))
  {
    var s := Escape(c) + [Quote] + rest;
    if |c| == 0 {
      assert s == [Quote] + rest;
      assert s[1..] == rest;
    } else {
      ParseFieldEscape(c[1..], rest);
      var t := Escape(c[1..]) + [Quote] + rest;
      if c[0] == Quote {
        assert s == [Quote, Quote] + t;
        assert s[2..] == t;
      } else {
        assert s == [c[0]] + t;
        assert s[1..] == t;
      }
      assert [c[0]] + c[1..] == c;
    }
  }

  lemma {:induction false} ParseFieldsImplode(cells: seq<string>, sep: string)
    requires |cells| > 0 && |sep| > 0 && sep[0] != Quote
    ensures ParseFields(Implode(sep, QuoteAll(cells)), sep) == Some(cells)
  {
    var q := QuoteAll(cells);
    var tail := if |cells| == 1 then "" else sep + Implode(sep, q[1..]);
    assert Implode(sep, q) == q[0] + tail;
    assert q[0] + tail == [Quote] + (Escape(cells[0]) + [Quote] + tail);
    var s := q[0] + tail;
    assert s[0] == Quote && s[1..] == Escape(cells[0]) + [Quote] + tail;
    ParseFieldEscape(cells[0], tail);
    assert ParseField(s[1..]) == Some((cells[0], tail));
    if |cells| == 1 {
      assert cells == [cells[0]];
    } else {
      assert q[1..] == QuoteAll(cells[1..]);
      ParseFieldsImplode(cells[1..], sep);
      assert sep <= tail;
      assert tail[|sep|..] == Implode(sep, q[1..]);
      assert [cells[0]] + cells[1..] == cells;
    }
  }

  /** Splitting a fully quoted row recovers its cells, whenever the delimiter does not start with a quote. */
  lemma ParseQuotedRowImplode(cells: seq<string>, sep: string)
    requires |sep| > 0 && sep[0] != Quote
    ensures ParseQuotedRow(Implode(sep, QuoteAll(cells)), sep) == Some(cells)
  {
    if |cells| > 0 {
      ParseFieldsImplode(cells, sep);
      var q := QuoteAll(cells);
      assert |Implode(sep, q)| > 0 by {
        assert Implode(sep, q)[0] == q[0][0];
      }
    }
  }
}
