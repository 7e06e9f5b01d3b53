/**
 * The HTML that `JsonPairInputs.render` emits: one fixed-shape line per
 * pair, joined with no separator, and a reader that takes such text apart
 * again so that the rendering can be checked against its inverse.
 */
module Markup {
  import opened Wrappers
  import opened PairList

  /** The template text up to the key: the key input's name, then its value attribute. */
  function KeyOpen(name: string): string {
    "<input type=\"text\" name=\"json_key[" + name + "]\" value=\""
  }

  /** The template text between the key and the value. */
  function KeyClose(name: string, keyFlat: string): string {
    "\" " + keyFlat + "> <input type=\"text\" name=\"json_value[" + name + "]\" value=\""
  }

  /** The template text after the value, ending the line. */
  function ValueClose(valFlat: string): string {
    "\" " + valFlat + "><br />"
  }

  /**
   * The line rendered for pair `p` of field `name`; `keyFlat` and `valFlat`
   * are the flattened attributes of the key and value inputs. Key and value
   * are inserted verbatim, without escaping.
   */
  function Line(name: string, keyFlat: string, valFlat: string, p: Pair): string {
    KeyOpen(name) + p.0 + KeyClose(name, keyFlat) + p.1 + ValueClose(valFlat)
  }

  /** The list `ret` of rendered lines, one per pair, in order. */
  function Lines(name: string, keyFlat: string, valFlat: string, ps: seq<Pair>): seq<string> {
    seq(|ps|, i requires 0 <= i < |ps| => Line(name, keyFlat, valFlat, ps[i]))
  }

  /** Rendering one more pair appends exactly that pair's line. */
  lemma LinesExtend(name: string, keyFlat: string, valFlat: string, ps: seq<Pair>, i: nat)
    requires i < |ps|
    ensures Lines(name, keyFlat, valFlat, ps[..i + 1])
         == Lines(name, keyFlat, valFlat, ps[..i]) + [Line(name, keyFlat, valFlat, ps[i])]
  {
  }

  /** `"".join(ls)`. */
  function Join(ls: seq<string>): string {
    if ls == [] then "" else ls[0] + Join(ls[1..])
  }

  /** Joining with no separator is plain concatenation, so it splits at any point. */
  lemma {:induction false} JoinAppend(a: seq<string>, b: seq<string>)
    ensures Join(a + b) == Join(a) + Join(b)
  {
    if a == [] {
      assert a + b == b;
    } else {
      assert (a + b)[1..] == a[1..] + b;
      JoinAppend(a[1..], b);
    }
  }

  /** The fragment rendered for the pair list `ps`. */
  function Rendered(name: string, keyFlat: string, valFlat: string, ps: seq<Pair>): string {
    Join(Lines(name, keyFlat, valFlat, ps))
  }

  /** The fragment is the first pair's line followed by the rest of the fragment. */
  lemma RenderedCons(name: string, keyFlat: string, valFlat: string, ps: seq<Pair>)
    requires ps != []
    ensures Rendered(name, keyFlat, valFlat, ps)
         == Line(name, keyFlat, valFlat, ps[0]) + Rendered(name, keyFlat, valFlat, ps[1..])
  {
    assert Lines(name, keyFlat, valFlat, ps)[1..] == Lines(name, keyFlat, valFlat, ps[1..]);
  }

  /** Rendering works line by line: the fragment of `a + b` is that of `a` followed by that of `b`. */
  lemma RenderedAppend(name: string, keyFlat: string, valFlat: string, a: seq<Pair>, b: seq<Pair>)
    ensures Rendered(name, keyFlat, valFlat, a + b)
         == Rendered(name, keyFlat, valFlat, a) + Rendered(name, keyFlat, valFlat, b)
  {
    assert Lines(name, keyFlat, valFlat, a + b)
        == Lines(name, keyFlat, valFlat, a) + Lines(name, keyFlat, valFlat, b);
    JoinAppend(Lines(name, keyFlat, valFlat, a), Lines(name, keyFlat, valFlat, b));
  }

  /** No pairs, no markup. */
  lemma RenderedEmpty(name: string, keyFlat: string, valFlat: string, ps: seq<Pair>)
    ensures Rendered(name, keyFlat, valFlat, ps) == "" <==> ps == []
  {
    if ps != [] {
      RenderedCons(name, keyFlat, valFlat, ps);
    }
  }

  // ---------------------------------------------------------------------
  // Reading a fragment back. The reader knows the field name and the two
  // flattened attribute strings, which are fixed for a widget instance.
  // ---------------------------------------------------------------------

  /** The text of `s` before its first double quote, and the rest of `s` from that quote on. */
  function SplitAtQuote(s: string): (r: (string, string))
    ensures r.0 + r.1 == s
    ensures '"' !in r.0
    ensures r.1 == [] || r.1[0] == '"'
  {
    if s == [] then ([], [])
    else if s[0] == '"' then ([], s)
    else
      var rest := SplitAtQuote(s[1..]);
      ([s[0]] + rest.0, rest.1)
  }

  /** An attribute value without quotes, followed by a quote, is split off exactly. */
  lemma {:induction false} SplitAtQuoteOf(v: string, t: string)
    requires '"' !in v
    requires t == [] || t[0] == '"'
    ensures SplitAtQuote(v + t) == (v, t)
  {
    if v != [] {
      assert (v + t)[0] == v[0] && (v + t)[1..] == v[1..] + t;
      SplitAtQuoteOf(v[1..], t);
      assert [v[0]] + v[1..] == v;
    } else {
      assert v + t == t;
    }
  }

  /**
   * Reads an attribute value that follows the fixed text `lead`: the text up
   * to the next quote, and what remains from that quote on.
   */
  function ReadField(lead: string, s: string): (r: Option<(string, string)>)
    ensures r.Some? ==> |lead| + |r.value.0| + |r.value.1| == |s|
  {
    if lead <= s then Some(SplitAtQuote(s[|lead|..])) else None
  }

  /** Reads one line of the template off the front of `s`: its pair and the text after it. */
  function ReadLine(name: string, keyFlat: string, valFlat: string, s: string): (r: Option<(Pair, string)>)
    ensures r.Some? ==> |r.value.1| < |s|
  {
    match ReadField(KeyOpen(name), s)
    case None => None
    case Some((k, r1)) =>
      match ReadField(KeyClose(name, keyFlat), r1)
      case None => None
      case Some((v, r2)) =>
        var close := ValueClose(valFlat);
        if close <= r2 then Some(((k, v), r2[|close|..])) else None
  }

  /** Reads a whole fragment as a sequence of template lines. */
  function ReadLines(name: string, keyFlat: string, valFlat: string, s: string): Option<seq<Pair>>
    decreases |s|
  {
    if s == [] then Some([])
    else
      match ReadLine(name, keyFlat, valFlat, s)
      case None => None
      case Some((p, rest)) =>
        match ReadLines(name, keyFlat, valFlat, rest)
        case None => None
        case Some(ps) => Some([p] + ps)
  }

  predicate QuoteFree(ps: seq<Pair>) {
    forall j :: 0 <= j < |ps| ==> '"' !in ps[j].0 && '"' !in ps[j].1
  }

  /** A quote-free value after `lead` and before a quote is read back exactly. */
  lemma ReadFieldOf(lead: string, v: string, t: string)
    requires '"' !in v
    requires t == [] || t[0] == '"'
    ensures ReadField(lead, lead + (v + t)) == Some((v, t))
  {
    assert (lead + (v + t))[|lead|..] == v + t;
    SplitAtQuoteOf(v, t);
  }

  /** The line of a quote-free pair reads back as that pair, leaving what follows. */
  lemma ReadLineOfLine(name: string, keyFlat: string, valFlat: string, p: Pair, rest: string)
    requires '"' !in p.0 && '"' !in p.1
    ensures ReadLine(name, keyFlat, valFlat, Line(name, keyFlat, valFlat, p) + rest) == Some((p, rest))
  {
    var close := ValueClose(valFlat);
    var r2 := close + rest;
    var r1 := KeyClose(name, keyFlat) + (p.1 + r2);
    assert Line(name, keyFlat, valFlat, p) + rest == KeyOpen(name) + (p.0 + r1);
    ReadFieldOf(KeyOpen(name), p.0, r1);
    ReadFieldOf(KeyClose(name, keyFlat), p.1, r2);
    assert close <= r2 && r2[|close|..] == rest;
  }

  /**
   * Render and read are inverse on quote-free pairs: the fragment holds
   * exactly one line per pair, in order, each with the pair's key and
   * value verbatim and the same attribute strings.
   */
  lemma {:induction false} ReadRendered(name: string, keyFlat: string, valFlat: string, ps: seq<Pair>)
    requires QuoteFree(ps)
    ensures ReadLines(name, keyFlat, valFlat, Rendered(name, keyFlat, valFlat, ps)) == Some(ps)
  {
    if ps != [] {
      var rest := Rendered(name, keyFlat, valFlat, ps[1..]);
      RenderedCons(name, keyFlat, valFlat, ps);
      ReadLineOfLine(name, keyFlat, valFlat, ps[0], rest);
      assert QuoteFree(ps[1..]) by {
        forall j | 0 <= j < |ps| - 1 ensures '"' !in ps[1..][j].0 && '"' !in ps[1..][j].1 {
          assert ps[1..][j] == ps[j + 1];
        }
      }
      ReadRendered(name, keyFlat, valFlat, ps[1..]);
      assert [ps[0]] + ps[1..] == ps;
    } else {
      RenderedEmpty(name, keyFlat, valFlat, ps);
    }
  }

  /**
   * Without escaping, a quote in a key or value lets text move between the
   * two: these two different pair lists render to the same markup.
   */
  lemma UnescapedQuoteCollides(name: string, keyFlat: string, valFlat: string)
    ensures var shifted := KeyClose(name, keyFlat);
            var a := [("k" + shifted, "v")];
            var b := [("k", shifted + "v")];
            a != b && Rendered(name, keyFlat, valFlat, a) == Rendered(name, keyFlat, valFlat, b)
  {
    var shifted := KeyClose(name, keyFlat);
    var a := [("k" + shifted, "v")];
    var b := [("k", shifted + "v")];
    assert |a[0].0| != |b[0].0|;
    RenderedCons(name, keyFlat, valFlat, a);
    RenderedCons(name, keyFlat, valFlat, b);
    assert Line(name, keyFlat, valFlat, a[0]) == Line(name, keyFlat, valFlat, b[0]);
  }
}
