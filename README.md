# JsonPairInputs: a Dafny model

This project models the `JsonPairInputs` form widget of django-admin-fields.
The widget edits an ordered list of (key, value) text pairs.
It shows the list as repeated pairs of text inputs and rebuilds it from the submitted `json_key[<name>]` and `json_value[<name>]` request parameters.

- `Widgets.JsonPairInputs` is a class. Its two attribute maps and the attribute flattener are constants set by the constructor.
- `Render` loops over the decoded pairs and appends one line per pair to `ret`, then joins them. It is proved equal to `RenderOf`, which is built from `Markup.Rendered`.
- `ValueFromDatadict` loops over `zip(keys, values)` and appends every pair with a non-empty key. It is proved equal to `Parsed`, which is `DropEmptyKeys(Zip(keys, values))`.
- Partners: `Markup.ReadLines` reads a rendered fragment back into pairs, and `Submission` is what a browser posts for the rendered inputs. Together they give render/parse round trips.
- The JSON text layer is a boundary. `Render` takes the decoder `loads` as a parameter that returns a pair list or `MalformedValue`. The decoder is assumed to map `'{}'` to no pairs. Parsing yields the pair list that would be handed to `dumps`.
- Python's exceptions become `Failure` values. When either request parameter is missing, the source reaches `return jsontext` with `jsontext` unbound. The model returns `Failure(FieldAbsent)` there.
- If only one of the two parameters is present, the code also reaches `return jsontext` with `jsontext` unbound (admin-fields/widgets.py:70, 78).
- `ParseSubmission` shows a consequence: a rendered EMPTY list submits no inputs, so parsing it back ends on that missing-value path.
- Keys and values are inserted into the markup without escaping, as in the code. `UnescapedQuoteCollides` shows two different lists with the same markup. The read-back round trip holds for quote-free pairs only.

## Model

| member | source | states |
|---|---|---|
| Widgets.JsonPairInputs.constructor | admin-fields/widgets.py:23-30 | the key and value attribute maps are stored as given, and are empty by default |
| Widgets.JsonPairInputs.Render | admin-fields/widgets.py:32-56 | the result is the decode error of `loads`, or the joined lines for the decoded pairs with this instance's flattened attributes |
| Widgets.IsBlank | admin-fields/widgets.py:43 | definition: the value is None, or `strip()` of it is the empty string |
| Widgets.StoredText | admin-fields/widgets.py:43-44 | a None or whitespace-only value is replaced by `'{}'`; any other value is decoded as it is |
| Text.StripEmptyIffAllSpace | admin-fields/widgets.py:43 | `strip()` gives the empty string exactly for whitespace-only text |
| Text.Strip | admin-fields/widgets.py:43 | the input is whitespace, then the result, then whitespace, and neither end of the result is whitespace |
| Text.TrimStart | admin-fields/widgets.py:43 | the result is a suffix of the input, and everything removed before it is whitespace |
| Text.TrimEnd | admin-fields/widgets.py:43 | the result is a prefix of the input, and everything removed after it is whitespace |
| Widgets.RenderOf | admin-fields/widgets.py:43-56 | definition: decode the stored text with `loads`; a decode error is the result, otherwise the rendered fragment of the decoded pairs |
| Markup.Line | admin-fields/widgets.py:55 | definition: the line-55 template for one pair, with the field name in both input names, the key and value inserted verbatim and without escaping, and the two flattened attribute strings |
| Markup.Lines | admin-fields/widgets.py:49-55 | definition: the list `ret`, one template line per pair, in order |
| Markup.Join | admin-fields/widgets.py:56 | definition: `"".join`, concatenation with no separator |
| Markup.Rendered | admin-fields/widgets.py:49-56 | definition: the joined lines of all pairs |
| Widgets.RenderBlank | admin-fields/widgets.py:43-56 | a None or blank value renders the empty string |
| Widgets.RenderDecodes | admin-fields/widgets.py:45-56 | render fails exactly when decoding fails, with the same error; on success, a quote-free decoded list reads back from the markup |
| Markup.ReadRendered | admin-fields/widgets.py:47-56 | for quote-free pairs the markup reads back as exactly the pair list: one line per pair, in order, with the fixed template, the key and value verbatim and the same attribute strings on every line |
| Markup.ReadLineOfLine | admin-fields/widgets.py:50-55 | one rendered line holds `name="json_key[<name>]"`, then the key, then `name="json_value[<name>]"`, then the value, each attribute string in its place |
| Markup.LinesExtend | admin-fields/widgets.py:49-55 | each loop step appends exactly the current pair's line to `ret` |
| Markup.RenderedCons | admin-fields/widgets.py:49-56 | the fragment is the first pair's line followed by the fragment of the other pairs |
| Markup.RenderedAppend | admin-fields/widgets.py:49-56 | the fragment of `a + b` is the fragment of `a` followed by that of `b`, with no separator |
| Markup.RenderedEmpty | admin-fields/widgets.py:47-56 | the fragment is empty exactly when there are no pairs |
| Markup.JoinAppend | admin-fields/widgets.py:56 | joining with `""` splits at any point of the line list |
| Markup.UnescapedQuoteCollides | admin-fields/widgets.py:55 | keys and values are not escaped, so two different pair lists can render identical markup |
| Markup.SplitAtQuote | admin-fields/widgets.py:55 | splits text at its first double quote; the two parts concatenate to the input |
| Markup.SplitAtQuoteOf | admin-fields/widgets.py:55 | a quote-free attribute value followed by a quote is split off exactly |
| Markup.ReadFieldOf | admin-fields/widgets.py:55 | a quote-free value after fixed template text is read back exactly |
| Widgets.JsonPairInputs.ValueFromDatadict | admin-fields/widgets.py:58-78 | the result equals `Parsed`: the filtered zip of the two parameter lists, or `FieldAbsent` |
| Widgets.KeyParam | admin-fields/widgets.py:70-71 | definition: the parameter name `json_key[<name>]` |
| Widgets.ValueParam | admin-fields/widgets.py:70-72 | definition: the parameter name `json_value[<name>]` |
| Widgets.Parsed | admin-fields/widgets.py:70-78 | definition: with both parameters present, the zipped lists with empty-key pairs dropped; otherwise `FieldAbsent` |
| Widgets.ParsedNeedsBothParams | admin-fields/widgets.py:70-78 | a pair list is produced exactly when both `json_key[<name>]` and `json_value[<name>]` are present |
| Widgets.ParsedSelects | admin-fields/widgets.py:71-76 | the result has at most min(len(keys), len(values)) pairs, every key non-empty, and is the order-preserving subsequence of the zipped pairs at exactly the positions whose key is non-empty |
| PairList.DropEmptyKeys | admin-fields/widgets.py:73-76 | every pair kept has a non-empty key; the result is never longer than its input, and is as long exactly when every key is non-empty |
| PairList.DropEmptyKeysMembers | admin-fields/widgets.py:74-76 | a pair occurs in the result exactly when it occurs in the input with a non-empty key; empty values are kept |
| PairList.KeptIndices | admin-fields/widgets.py:74-76 | the kept positions, strictly increasing, are exactly those with a non-empty key |
| PairList.DropEmptyKeysSelects | admin-fields/widgets.py:74-76 | the j-th kept pair is the pair at the j-th kept position |
| PairList.DropEmptyKeysKeepsKeyed | admin-fields/widgets.py:74-76 | a list whose keys are all non-empty is returned unchanged |
| PairList.DropEmptyKeysIdempotent | admin-fields/widgets.py:74-76 | filtering twice equals filtering once |
| PairList.DropEmptyKeysAppend | admin-fields/widgets.py:74-76 | the filter distributes over concatenation, so the loop can grow the result one pair at a time |
| PairList.Zip | admin-fields/widgets.py:74 | definition: Python's `zip`, the pairs by position, as many as the shorter list has |
| PairList.ZipExtend | admin-fields/widgets.py:74 | zipping one more position adds exactly that pair at the end |
| PairList.ZipTruncates | admin-fields/widgets.py:74 | zip ignores the extra elements of the longer list |
| PairList.ZipOfColumns | admin-fields/widgets.py:74 | zipping a list's key column with its value column returns the list |
| Widgets.ParamsDistinct | admin-fields/widgets.py:70 | the key parameter name and the value parameter name of a field never coincide |
| Widgets.ParseSubmission | admin-fields/widgets.py:70-77 | posting back the inputs for a pair list parses to that list minus its empty keys; an empty list posts nothing and gives `FieldAbsent` |
| Widgets.ParseFixedPoint | admin-fields/widgets.py:70-77 | re-submitting a non-empty parse result parses to the same list |
| Widgets.RenderParseRoundTrip | admin-fields/widgets.py:49-76 | a non-empty, quote-free list with non-empty keys survives render, read-back and parse unchanged |

## Left out

- JSON encoding and decoding (`simplejson.dumps` and `loads`, lines 45 and 77). This is a foreign library, so only the pair list crossing that boundary is modelled. A decoded value that is not a list of two-element string lists counts as a decode failure, except that `'{}'` is taken as no pairs. The source renders some of these values instead: `[[1, 2]]` goes through `%s` as `value="1"`, and `["ab"]` is unpacked to key `a` and value `b` (lines 49-55).
- `Widgets.RenderBlank`: requires the decoder to map `'{}'` to no pairs. Python's `{}` is an empty dict, and iterating it yields nothing. `Widgets.JsonPairInputs.Render` itself holds for any decoder.
- `flatatt` is a constant of the instance: an arbitrary function from attribute map to string. Attribute values are modelled as text.
- `force_unicode` and `mark_safe` are identities. The `Widget` base class and its constructor arguments are not modelled.
- The `attrs` argument of `render` and the `files` argument of `value_from_datadict` are unused by the code, so they are not modelled.
- `Text.IsSpace` treats only ASCII whitespace as blank: space, tab, LF, VT, FF and CR. Unicode whitespace beyond these is not modelled.
- The `value.strip() is ''` identity test is modelled as string equality.
- The guard `if value and len(value) > 0` (line 48) is always true at that point, so it has no branch in the model.
- HTML attribute escaping is not added, because the code does none.
- The request object is a map from parameter name to its list of values. `getlist` on a present name returns that list.
- `Widgets.Submission` and `Markup.ReadLines` stand in for the browser. The model does not parse HTML in general. The reader copies attribute text exactly as written, while a browser decodes character references (`&amp;` is posted as `&`) and removes line breaks from text-input values, so `Widgets.RenderParseRoundTrip` holds for the model's reader, not for a browser, on such text.
- `MarkItUpWidget` (line 81) is not part of this model; only its class line exists in the file.
- setup.py holds packaging metadata and file reading, which has nothing to verify.
