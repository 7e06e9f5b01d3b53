/**
 * The JsonPairInputs form widget: it shows an ordered list of key/value
 * pairs as repeated pairs of text inputs and rebuilds the list from the
 * repeated `json_key[<name>]` / `json_value[<name>]` request parameters.
 * The JSON text layer is a boundary: render receives the decoder as a
 * function, and parsing yields the pair list that would be JSON-encoded.
 */
module Widgets {
  import opened Wrappers
  import opened Text
  import opened PairList
  import opened Markup

  /** An HTML attribute map such as `{'size': 35}`, values as text. */
  type Attrs = map<string, string>

  /** The submitted parameters: each name maps to its list of repeated values. */
  type QueryDict = map<string, seq<string>>

  /** The stored value is not a JSON list of two-element string lists. */
  datatype DecodeError = MalformedValue

  /** One of the two parameters was not submitted, where the source has no value to return. */
  datatype ParseError = FieldAbsent

  function KeyParam(name: string): string {
    "json_key[" + name + "]"
  }

  function ValueParam(name: string): string {
    "json_value[" + name + "]"
  }

  /** The key and value parameters of one field are always distinct names. */
  lemma ParamsDistinct(name: string)
    ensures KeyParam(name) != ValueParam(name)
  {
    assert KeyParam(name)[5] != ValueParam(name)[5];
  }

  /** `value is None or value.strip() == ''`. */
  predicate IsBlank(value: Option<string>) {
    value.None? || Strip(value.value) == ""
  }

  /** The JSON text render decodes: a blank value stands for `'{}'`. */
  function StoredText(value: Option<string>): (text: string)
    ensures text == if value.None? || AllSpace(value.value) then "{}" else value.value
  {
    StripEmptyIffAllSpace(if value.Some? then value.value else "");
    if IsBlank(value) then "{}" else value.value
  }

  /**
   * What `render` produces for `value`, given the flattened attribute
   * strings and the JSON decoder `loads`: a decode error propagates.
   */
  function RenderOf(name: string, keyFlat: string, valFlat: string, value: Option<string>,
                    loads: string -> Result<seq<Pair>, DecodeError>): Result<string, DecodeError>
  {
    match loads(StoredText(value))
    case Failure(e) => Failure(e)
    case Success(ps) => Success(Rendered(name, keyFlat, valFlat, ps))
  }

  /** A missing or whitespace-only value stands for `'{}'`, which holds no pairs, and renders nothing. */
  lemma RenderBlank(name: string, keyFlat: string, valFlat: string, value: Option<string>,
                    loads: string -> Result<seq<Pair>, DecodeError>)
    requires loads("{}") == Success([])
    requires IsBlank(value)
    ensures RenderOf(name, keyFlat, valFlat, value, loads) == Success("")
  {
    RenderedEmpty(name, keyFlat, valFlat, []);
  }

  /**
   * Render fails exactly when decoding fails, with the decoder's error;
   * otherwise its text reads back, for quote-free pairs, as the decoded list.
   */
  lemma RenderDecodes(name: string, keyFlat: string, valFlat: string, value: Option<string>,
                      loads: string -> Result<seq<Pair>, DecodeError>)
    ensures var r, d := RenderOf(name, keyFlat, valFlat, value, loads), loads(StoredText(value));
            && (r.Failure? <==> d.Failure?)
            && (r.Failure? ==> r.error == d.error)
            && (r.Success? && QuoteFree(d.value) ==> ReadLines(name, keyFlat, valFlat, r.value) == Some(d.value))
  {
    var d := loads(StoredText(value));
    if d.Success? && QuoteFree(d.value) {
      ReadRendered(name, keyFlat, valFlat, d.value);
    }
  }

  /** What `value_from_datadict` yields for request parameters `data`. */
  function Parsed(data: QueryDict, name: string): Result<seq<Pair>, ParseError> {
    if KeyParam(name) in data && ValueParam(name) in data then
      Success(DropEmptyKeys(Zip(data[KeyParam(name)], data[ValueParam(name)])))
    else
      Failure(FieldAbsent)
  }

  /** A result is produced exactly when both parameters were submitted. */
  lemma ParsedNeedsBothParams(data: QueryDict, name: string)
    ensures Parsed(data, name).Success? <==> KeyParam(name) in data && ValueParam(name) in data
  {
  }

  /**
   * The parsed list is the order-preserving subsequence of the zipped
   * parameters at the positions with a non-empty key; it is never longer
   * than the shorter parameter list, and its values may be empty.
   */
  lemma ParsedSelects(data: QueryDict, name: string)
    requires KeyParam(name) in data && ValueParam(name) in data
    ensures var keys, values := data[KeyParam(name)], data[ValueParam(name)];
            var r, idx := Parsed(data, name).value, KeptIndices(Zip(keys, values));
            && |r| <= Min(|keys|, |values|)
            && AllKeyed(r)
            && |r| == |idx|
            && (forall j :: 0 <= j < |idx| ==> idx[j] < Min(|keys|, |values|) && r[j] == (keys[idx[j]], values[idx[j]]))
            && (forall i :: 0 <= i < Min(|keys|, |values|) ==> (i in idx <==> |keys[i]| > 0))
  {
    var zipped := Zip(data[KeyParam(name)], data[ValueParam(name)]);
    DropEmptyKeysSelects(zipped);
  }

  /**
   * The parameters a browser posts back for inputs rendered from `ps`:
   * every text input is submitted, so a non-empty list submits both names.
   */
  function Submission(name: string, ps: seq<Pair>): QueryDict {
    if ps == [] then map[]
    else map[KeyParam(name) := Keys(ps), ValueParam(name) := Values(ps)]
  }

  /**
   * Posting back a rendered list parses to that list less its empty keys;
   * a rendered empty list posts nothing, where the source has no value to return.
   */
  lemma ParseSubmission(name: string, ps: seq<Pair>)
    ensures Parsed(Submission(name, ps), name)
         == if ps == [] then Failure(FieldAbsent) else Success(DropEmptyKeys(ps))
  {
    ParamsDistinct(name);
    ZipOfColumns(ps);
  }

  /** Parsing reaches a fixed point after one pass: re-submitting its result parses to the same list. */
  lemma ParseFixedPoint(data: QueryDict, name: string)
    requires Parsed(data, name).Success? && Parsed(data, name).value != []
    ensures Parsed(Submission(name, Parsed(data, name).value), name) == Parsed(data, name)
  {
    ParseSubmission(name, Parsed(data, name).value);
    DropEmptyKeysIdempotent(Zip(data[KeyParam(name)], data[ValueParam(name)]));
  }

  /**
   * Rendering a non-empty, quote-free list whose keys are all non-empty,
   * reading the inputs back and parsing them returns the list itself.
   */
  lemma RenderParseRoundTrip(name: string, keyFlat: string, valFlat: string, ps: seq<Pair>)
    requires ps != [] && AllKeyed(ps) && QuoteFree(ps)
    ensures var shown := ReadLines(name, keyFlat, valFlat, Rendered(name, keyFlat, valFlat, ps));
            shown == Some(ps) && Parsed(Submission(name, shown.value), name) == Success(ps)
  {
    ReadRendered(name, keyFlat, valFlat, ps);
    ParseSubmission(name, ps);
    DropEmptyKeysKeepsKeyed(ps);
  }

  class JsonPairInputs {
    /** HTML attributes of every key input. */
    const keyAttrs: Attrs
    /** HTML attributes of every value input. */
    const valAttrs: Attrs
    /** Django's `flatatt`: an attribute map as a string of attribute tokens, left opaque. */
    const flatatt: Attrs -> string

    /** Stores both attribute maps, each empty by default; they are never changed afterwards. */
    constructor (flatatt: Attrs -> string, keyAttrs: Attrs := map[], valAttrs: Attrs := map[])
      ensures this.keyAttrs == keyAttrs && this.valAttrs == valAttrs && this.flatatt == flatatt
    {
      this.keyAttrs := keyAttrs;
      this.valAttrs := valAttrs;
      this.flatatt := flatatt;
    }

    /**
     * The HTML for field `name` holding `value` (None when there is none).
     * `loads` is the JSON decoder: the pair list it finds, or a decode error.
     */
    method Render(name: string, value: Option<string>, loads: string -> Result<seq<Pair>, DecodeError>)
      returns (r: Result<string, DecodeError>)
      ensures r == RenderOf(name, flatatt(keyAttrs), flatatt(valAttrs), value, loads)
    {
      var text := if value.None? || Strip(value.value) == "" then "{}" else value.value;
      assert text == StoredText(value);
      var decoded := loads(text);
      if decoded.Failure? {
        return Failure(decoded.error);
      }
      var twotuple := decoded.value;
      ghost var keyFlat0, valFlat0 := flatatt(keyAttrs), flatatt(valAttrs);
      var ret: seq<string> := [];
      var i := 0;
      while i < |twotuple|
        invariant 0 <= i <= |twotuple|
        invariant ret == Lines(name, keyFlat0, valFlat0, twotuple[..i])
      {
        var (k, v) := twotuple[i];
        var keyFlat, valFlat := flatatt(keyAttrs), flatatt(valAttrs);
        LinesExtend(name, keyFlat, valFlat, twotuple, i);
        ret := ret + [Line(name, keyFlat, valFlat, (k, v))];
        i := i + 1;
      }
      assert twotuple[..i] == twotuple;
      r := Success(Join(ret));
    }

    /** The pair list posted for field `name`, ready to be JSON-encoded. */
    method ValueFromDatadict(data: QueryDict, name: string) returns (r: Result<seq<Pair>, ParseError>)
      ensures r == Parsed(data, name)
    {
      if KeyParam(name) in data && ValueParam(name) in data {
        var keys := data[KeyParam(name)];
        var values := data[ValueParam(name)];
        var twotuple: seq<Pair> := [];
        var i := 0;
        while i < |keys| && i < |values|
          invariant 0 <= i <= Min(|keys|, |values|)
          invariant twotuple == DropEmptyKeys(Zip(keys[..i], values[..i]))
        {
          ZipExtend(keys, values, i);
          DropEmptyKeysAppend(Zip(keys[..i], values[..i]), [(keys[i], values[i])]);
          if |keys[i]| > 0 {
            twotuple := twotuple + [(keys[i], values[i])];
          }
          i := i + 1;
        }
        ZipTruncates(keys, values);
        r := Success(twotuple);
      } else {
        r := Failure(FieldAbsent);
      }
    }
  }
}
