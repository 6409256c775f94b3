/**
 * PHP's `implode`, which the CSV formatter uses to join cells and lines, and `Split`,
 * the reading direction that inverts it; the formatter never splits, and `Split`
 * serves only to state what the formatter's output contains.
 */
module PhpText {

  /** PHP's `implode(sep, parts)`: the parts in order with `sep` between neighbours. */
  function Implode(sep: string, parts: seq<string>): string
  {
    if |parts| == 0 then ""
    else if |parts| == 1 then parts[0]
    else parts[0] + sep + Implode(sep, parts[1..])
  }

  /** Splits `s` at every occurrence of `sep`, scanning left to right (PHP's `explode`). */
  function Split(s: string, sep: string): (r: seq<string>)
    requires |sep| > 0
    ensures |r| > 0
    decreases |s|
  {
    if |s| == 0 then [""]
    else if sep <= s then [""] + Split(s[|sep|..], sep)
    else
      var rest := Split(s[1..], sep);
      [[s[0]] + rest[0]] + rest[1..]
  }

  /** No part mentions the character `c`. */
  ghost predicate AllAvoid(parts: seq<string>, c: char)
  {
    forall i :: 0 <= i < |parts| ==> c !in parts[i]
  }

  /** A prefix free of the separator's first character is glued to the first piece. */
  lemma {:induction false} SplitPrefix(p: string, rest: string, sep: string)
    requires |sep| > 0 && sep[0] !in p
    ensures Split(p + rest, sep) == [p + Split(rest, sep)[0]] + Split(rest, sep)[1..]
  {
    if |p| == 0 {
      assert p + rest == rest;
      var r := Split(rest, sep);
      assert p + r[0] == r[0];
      assert [r[0]] + r[1..] == r;
    } else {
      assert (p + rest)[0] == p[0] != sep[0];
      assert (p + rest)[1..] == p[1..] + rest;
      SplitPrefix(p[1..], rest, sep);
      assert [p[0]] + (p[1..] + Split(rest, sep)[0]) == p + Split(rest, sep)[0];
    }
  }

  /** `Split` undoes `Implode` when no part contains the separator's first character. */
  lemma {:induction false} SplitImplode(parts: seq<string>, sep: string)
    requires |parts| > 0 && |sep| > 0
    requires AllAvoid(parts, sep[0])
    ensures Split(Implode(sep, parts), sep) == parts
  {
    if |parts| == 1 {
      SplitPrefix(parts[0], "", sep);
      assert parts[0] + "" == parts[0];
    } else {
      var tail := Implode(sep, parts[1..]);
      assert AllAvoid(parts[1..], sep[0]) by {
        forall i | 0 <= i < |parts[1..]| ensures sep[0] !in parts[1..][i] {
          assert parts[1..][i] == parts[i + 1];
        }
      }
      SplitImplode(parts[1..], sep);
      assert Implode(sep, parts) == parts[0] + (sep + tail);
      assert sep <= sep + tail;
      assert (sep + tail)[|sep|..] == tail;
      assert Split(sep + tail, sep) == [""] + parts[1..];
      SplitPrefix(parts[0], sep + tail, sep);
      assert parts[0] + "" == parts[0];
    }
  }

  /** A character absent from the separator and from every part is absent from the result. */
  lemma {:induction false} ImplodeAvoids(sep: string, parts: seq<string>, c: char)
    requires c !in sep && AllAvoid(parts, c)
    ensures c !in Implode(sep, parts)
  {
    if |parts| > 1 {
      assert AllAvoid(parts[1..], c) by {
        forall i | 0 <= i < |parts[1..]| ensures c !in parts[1..][i] {
          assert parts[1..][i] == parts[i + 1];
        }
      }
      ImplodeAvoids(sep, parts[1..], c);
      assert c !in parts[0];
    } else if |parts| == 1 {
      assert c !in parts[0];
    }
  }
}
