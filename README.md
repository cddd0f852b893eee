# WMS 1.3.0 Capabilities readers, modelled in Dafny

OpenLayers reads a WMS Capabilities document with a table of element readers keyed by tag name. Each reader takes an element `node` and the object `obj` that the parent element's reader passed down. It reads attributes and text from the element and writes the result into `obj`. This project models the readers that the 1.3.0 format (OGC 06-042 / ISO 19128) adds on top of, or redefines over, the common v1 (WMS 1.x) readers of `OpenLayers.Format.WMSCapabilities.v1`:

- `Dimension` (section 7.2.4.6.10 and Annex C of the standard);
- `Keyword`;
- `BoundingBox`;
- `EX_GeographicBoundingBox` and its four leaf readers `westBoundLongitude`, `southBoundLatitude`, `eastBoundLongitude` and `northBoundLatitude`;
- `LayerLimit`, `MaxWidth` and `MaxHeight`.

It also models the JavaScript built-ins these readers depend on.

Files:

- `wrappers.dfy`: `Option`. `None` stands for `null` or an absent property.
- `js_strings.dfy` (module `JsStrings`): `toLowerCase` on ASCII letters, and `split` / `join` with a one-character separator. It includes both round trips and the piece count.
- `js_parse_int.dfy` (module `JsParseInt`): `parseInt(s)` without a radix, following section 15.1.2.2 of ECMAScript 5.1. It skips white space, reads one sign, treats a `0x` prefix as radix 16 and otherwise reads radix 10, then takes the longest digit prefix. No digits gives `NaN`.
- `capabilities_v1_3.dfy` (module `WmsCapabilitiesV13`):
  - the element (`Node`: its tag, attributes, text content and children);
  - the `Dimension`, `Keyword` and `BBox` records and the pure functions that build them;
  - pure functions for each reader's effect on a map, a list or the four bound slots, with lemmas about them;
  - the leaf readers, which work in place on the 4-slot `llbbox` array;
  - class `Accumulator`, which stands for `obj`.

Each method of `Accumulator` changes its fields in place. Its `ensures` gives the whole new state as a `Snapshot`, computed from the old state by the pure functions above.

The main results:

- **Dimension values.** A dimension's `values` are exactly the comma pieces of its text: joined with commas they give the text back, no piece holds a comma, and there are `commas + 1` pieces. Splitting the join of a non-empty list of comma-free pieces gives the pieces back.
- **Dimension keys.** Dimensions stay filed under their own lower-case name.
- **Dimension order.** A later dimension whose name matches an earlier one ignoring case replaces it. Dimensions with different names commute.
- **Keywords.** A keyword is appended only to an existing list, so a missing list stays missing.
- **Bounding boxes.** Each bounding box is filed under the key its own `srs` gives. A missing `CRS` attribute gives the JavaScript property key `"null"`.
- **Geographic bounding box.** Slot `k` holds the text of the last child for that bound. When all children for one bound are the same element value (in particular when each bound occurs at most once), child order does not matter, and the four bounds in any order give `[west, south, east, north]`.
- **`parseInt`.** It reads back every integer's decimal numeral, also when text follows that does not continue the numeral (`"12px"`; after a lone `0`, not an `x` or `X`), and leading white space makes no difference.

## Model

| member | source | states |
|---|---|---|
| JsStrings.ToLower | src/main/webapp/assets/bower_components/openlayers/lib/OpenLayers/Format/WMSCapabilities/v1_3.js:90 | lowercasing keeps the length and maps each character to its ASCII lower case |
| JsStrings.ToLowerEqualIff | src/main/webapp/assets/bower_components/openlayers/lib/OpenLayers/Format/WMSCapabilities/v1_3.js:90 | two names give the same key exactly when they are equal ignoring ASCII case (both directions) |
| JsStrings.Split | src/main/webapp/assets/bower_components/openlayers/lib/OpenLayers/Format/WMSCapabilities/v1_3.js:99 | `split(",")` always yields at least one piece |
| JsStrings.JoinSplit | src/main/webapp/assets/bower_components/openlayers/lib/OpenLayers/Format/WMSCapabilities/v1_3.js:99 | joining the pieces of `text.split(",")` with `","` gives back the text |
| JsStrings.SplitPiecesFree | src/main/webapp/assets/bower_components/openlayers/lib/OpenLayers/Format/WMSCapabilities/v1_3.js:99 | no piece of a split contains the separator |
| JsStrings.SplitLength | src/main/webapp/assets/bower_components/openlayers/lib/OpenLayers/Format/WMSCapabilities/v1_3.js:99 | the number of pieces is the number of separators plus one, so `""` gives `[""]` |
| JsStrings.SplitJoin | src/main/webapp/assets/bower_components/openlayers/lib/OpenLayers/Format/WMSCapabilities/v1_3.js:99 | splitting the join of non-empty, separator-free piece lists gives the pieces back, so a split is the only such decomposition |
| JsParseInt.TrimStart | src/main/webapp/assets/bower_components/openlayers/lib/OpenLayers/Format/WMSCapabilities/v1_3.js:44 | the leading white space `parseInt` skips is all white space, and the rest starts with no white space |
| JsParseInt.DigitPrefix | src/main/webapp/assets/bower_components/openlayers/lib/OpenLayers/Format/WMSCapabilities/v1_3.js:44 | the digits `parseInt` reads are the longest prefix of radix digits |
| JsParseInt.ReadMagnitude | src/main/webapp/assets/bower_components/openlayers/lib/OpenLayers/Format/WMSCapabilities/v1_3.js:44 | the magnitude read is never negative |
| JsParseInt.ReadMagnitudeHex | src/main/webapp/assets/bower_components/openlayers/lib/OpenLayers/Format/WMSCapabilities/v1_3.js:44 | after a `0x` or `0X` prefix, the magnitude is the value in radix 16 of the longest run of hexadecimal digits, up to the first character that is not one |
| JsParseInt.ParseSignedCases | src/main/webapp/assets/bower_components/openlayers/lib/OpenLayers/Format/WMSCapabilities/v1_3.js:44 | after the white space, a `-` negates the magnitude, a `+` keeps it, text with no sign is read as the magnitude, and an empty string is NaN |
| JsParseInt.ParseIntAfterWhiteSpace | src/main/webapp/assets/bower_components/openlayers/lib/OpenLayers/Format/WMSCapabilities/v1_3.js:44 | `parseInt` skips exactly the white space at the start of the text and reads the rest from the first character that is not white space |
| JsParseInt.ParseIntDecimal | src/main/webapp/assets/bower_components/openlayers/lib/OpenLayers/Format/WMSCapabilities/v1_3.js:44 | `parseInt` of the decimal numeral of `n` is `n`. It stays `n` when the text that follows does not start with a decimal digit, unless it is an `x`/`X` after the numeral `0`, which would make a hex prefix (`"12px"` and `"12x"` give 12) |
| JsParseInt.ParseIntSkipsWhiteSpace | src/main/webapp/assets/bower_components/openlayers/lib/OpenLayers/Format/WMSCapabilities/v1_3.js:44 | leading white space does not change the result of `parseInt` |
| WmsCapabilitiesV13.OrEmpty | src/main/webapp/assets/bower_components/openlayers/lib/OpenLayers/Format/WMSCapabilities/v1_3.js:97 | the fallback to the empty string gives `""` exactly when the attribute is missing or empty, and the attribute value otherwise |
| WmsCapabilitiesV13.ReadDimensionRecord | src/main/webapp/assets/bower_components/openlayers/lib/OpenLayers/Format/WMSCapabilities/v1_3.js:89-101 | name is the lowercased `name` attribute; `units`/`unitsymbol` are the attributes; each flag is true exactly when its attribute is `"1"`; `default` falls back to `""` |
| WmsCapabilitiesV13.DimensionValues | src/main/webapp/assets/bower_components/openlayers/lib/OpenLayers/Format/WMSCapabilities/v1_3.js:99 | `values` joined with `","` is the text, no value holds a comma, and there are commas + 1 values |
| WmsCapabilitiesV13.InsertDimension | src/main/webapp/assets/bower_components/openlayers/lib/OpenLayers/Format/WMSCapabilities/v1_3.js:102 | the new map has exactly one new or replaced key, the lowercased name, holding the new record; all other entries are unchanged |
| WmsCapabilitiesV13.InsertDimensionKeyed | src/main/webapp/assets/bower_components/openlayers/lib/OpenLayers/Format/WMSCapabilities/v1_3.js:90-102 | if every entry's `name` equals its key and that key is lower case, the `Dimension` reader keeps it so |
| WmsCapabilitiesV13.SameNameOverwrites | src/main/webapp/assets/bower_components/openlayers/lib/OpenLayers/Format/WMSCapabilities/v1_3.js:90-102 | a later dimension with the same name ignoring case replaces the earlier one |
| WmsCapabilitiesV13.DifferentNamesCommute | src/main/webapp/assets/bower_components/openlayers/lib/OpenLayers/Format/WMSCapabilities/v1_3.js:90-102 | dimensions whose names differ ignoring case can be read in either order |
| WmsCapabilitiesV13.ReadKeywordRecord | src/main/webapp/assets/bower_components/openlayers/lib/OpenLayers/Format/WMSCapabilities/v1_3.js:105-106 | the keyword's `value` is the element's text and its `vocabulary` is the `vocabulary` attribute, `None` when missing |
| WmsCapabilitiesV13.AppendKeyword | src/main/webapp/assets/bower_components/openlayers/lib/OpenLayers/Format/WMSCapabilities/v1_3.js:104-110 | an existing list grows by exactly one, the new keyword at the end with the earlier entries unchanged; a missing list stays missing |
| WmsCapabilitiesV13.BBoxKey | src/main/webapp/assets/bower_components/openlayers/lib/OpenLayers/Format/WMSCapabilities/v1_3.js:55 | a present `srs` is its own property key; a `null` one is converted to the key `"null"`, which is also the key of the literal `"null"` |
| WmsCapabilitiesV13.FileBoundingBox | src/main/webapp/assets/bower_components/openlayers/lib/OpenLayers/Format/WMSCapabilities/v1_3.js:52-56 | the box is filed under the key of its `CRS` attribute with `srs` set to that attribute; other keys are untouched; a present `CRS` is its own key |
| WmsCapabilitiesV13.FileBoundingBoxKeyed | src/main/webapp/assets/bower_components/openlayers/lib/OpenLayers/Format/WMSCapabilities/v1_3.js:54-55 | if every bounding box is filed under the key its own `srs` gives, the reader keeps it so |
| WmsCapabilitiesV13.BoundSlotTag | src/main/webapp/assets/bower_components/openlayers/lib/OpenLayers/Format/WMSCapabilities/v1_3.js:65-76 | west, south, east and north correspond one to one with the slots 0, 1, 2 and 3 |
| WmsCapabilitiesV13.ApplyBound | src/main/webapp/assets/bower_components/openlayers/lib/OpenLayers/Format/WMSCapabilities/v1_3.js:62-76 | one child read into the array: slot `j` gets the child's text exactly when the tag is that slot's bound, and every other slot is unchanged |
| WmsCapabilitiesV13.FoldBounds | src/main/webapp/assets/bower_components/openlayers/lib/OpenLayers/Format/WMSCapabilities/v1_3.js:62-76 | the children read in document order keep four slots, and a slot that no child is read into keeps its content |
| WmsCapabilitiesV13.FoldBoundsSlot | src/main/webapp/assets/bower_components/openlayers/lib/OpenLayers/Format/WMSCapabilities/v1_3.js:60-76 | after the children are read, slot `k` holds the text of the last child for that bound, or its old content if there is no such child |
| WmsCapabilitiesV13.BoundsOfUniqueChildren | src/main/webapp/assets/bower_components/openlayers/lib/OpenLayers/Format/WMSCapabilities/v1_3.js:60-76 | when all children for one bound are the same element value, slot `k` holds that element's text, and a missing child leaves the slot empty |
| WmsCapabilitiesV13.BoundsOrderIndependent | src/main/webapp/assets/bower_components/openlayers/lib/OpenLayers/Format/WMSCapabilities/v1_3.js:60-76 | any reordering of the children gives the same four slots, provided all children for one bound are the same element value |
| WmsCapabilitiesV13.FourBoundsInAnyOrder | src/main/webapp/assets/bower_components/openlayers/lib/OpenLayers/Format/WMSCapabilities/v1_3.js:60-76 | the four bound elements in any order give `[west, south, east, north]` |
| WmsCapabilitiesV13.ReadWestBoundLongitude | src/main/webapp/assets/bower_components/openlayers/lib/OpenLayers/Format/WMSCapabilities/v1_3.js:65-67 | writes the text into slot 0 and changes nothing else |
| WmsCapabilitiesV13.ReadSouthBoundLatitude | src/main/webapp/assets/bower_components/openlayers/lib/OpenLayers/Format/WMSCapabilities/v1_3.js:71-73 | writes the text into slot 1 and changes nothing else |
| WmsCapabilitiesV13.ReadEastBoundLongitude | src/main/webapp/assets/bower_components/openlayers/lib/OpenLayers/Format/WMSCapabilities/v1_3.js:68-70 | writes the text into slot 2 and changes nothing else |
| WmsCapabilitiesV13.ReadNorthBoundLatitude | src/main/webapp/assets/bower_components/openlayers/lib/OpenLayers/Format/WMSCapabilities/v1_3.js:74-76 | writes the text into slot 3 and changes nothing else |
| WmsCapabilitiesV13.ReadBound | src/main/webapp/assets/bower_components/openlayers/lib/OpenLayers/Format/WMSCapabilities/v1_3.js:65-76 | the reader chosen by the child's tag changes the array as `ApplyBound` does; any other child changes nothing |
| WmsCapabilitiesV13.Accumulator.ReadExGeographicBoundingBox | src/main/webapp/assets/bower_components/openlayers/lib/OpenLayers/Format/WMSCapabilities/v1_3.js:60-64 | `llbbox` becomes a fresh array holding the children read in order from four empty slots; no other field changes |
| WmsCapabilitiesV13.Accumulator.HeldBoundsTakeMore | src/main/webapp/assets/bower_components/openlayers/lib/OpenLayers/Format/WMSCapabilities/v1_3.js:61-62 | a valid object's `llbbox` has four slots, so more bound children can be read into it, and each slot that no new child is read into keeps its content |
| WmsCapabilitiesV13.Accumulator.ReadLayerLimit | src/main/webapp/assets/bower_components/openlayers/lib/OpenLayers/Format/WMSCapabilities/v1_3.js:43-45 | only `layerLimit` changes, to `parseInt` of the text |
| WmsCapabilitiesV13.Accumulator.ReadMaxWidth | src/main/webapp/assets/bower_components/openlayers/lib/OpenLayers/Format/WMSCapabilities/v1_3.js:46-48 | only `maxWidth` changes, to `parseInt` of the text |
| WmsCapabilitiesV13.Accumulator.ReadMaxHeight | src/main/webapp/assets/bower_components/openlayers/lib/OpenLayers/Format/WMSCapabilities/v1_3.js:49-51 | only `maxHeight` changes, to `parseInt` of the text |
| WmsCapabilitiesV13.Accumulator.ReadBoundingBox | src/main/webapp/assets/bower_components/openlayers/lib/OpenLayers/Format/WMSCapabilities/v1_3.js:52-56 | only `bbox` changes, as `FileBoundingBox` gives; the map must exist |
| WmsCapabilitiesV13.Accumulator.ReadDimension | src/main/webapp/assets/bower_components/openlayers/lib/OpenLayers/Format/WMSCapabilities/v1_3.js:89-103 | only `dimensions` changes, as `InsertDimension` gives; the map and the `name` attribute must exist |
| WmsCapabilitiesV13.Accumulator.ReadKeyword | src/main/webapp/assets/bower_components/openlayers/lib/OpenLayers/Format/WMSCapabilities/v1_3.js:104-110 | only `keywords` changes, as `AppendKeyword` gives; without a list the object is left exactly as it was |

## Left out

- `MinScaleDenominator` / `MaxScaleDenominator` (lines 77-88) are not modelled. They use `parseFloat(...).toPrecision(16)` and compare the resulting string with `0` and `Infinity` by JavaScript coercion. That is floating-point formatting, which this model does not represent.
- `WMS_Capabilities` (lines 40-42) is not modelled. It only hands its children to the generic traversal, which is not part of this model.
- The `CRS` element (lines 57-59) delegates to the common v1 (WMS 1.x) `SRS` reader. The v1 readers are not part of this model.
- The `sld` readers (lines 112-124) are not modelled. They call the common v1 (WMS 1.x) `UserDefinedSymbolization`, `DescribeLayer` and `GetLegendGraphic` readers, which are not part of this model. Their two `parseInt(...) == 1` flags write into `obj.userSymbols`, which an unmodelled reader creates.
- The base `BoundingBox` record (line 53) is built by the common v1 (WMS 1.x) reader. It is a parameter of `ReadBoundingBox`, and its fields are carried without interpretation.
- `OpenLayers.Util.applyDefaults` and `OpenLayers.Class` (lines 27, 39, 111) are toolkit helpers that merge reader tables and compose the class. They are not modelled.
- The DOM is abstracted. An element is its local name, its attributes, the concatenated text `getChildValue` returns, and its children. Namespaces are not represented, and neither is the traversal that dispatches children to readers across the whole table.
- ReadBound: inside `EX_GeographicBoundingBox`, a child other than the four bounds is ignored. In the library it would go to whichever reader has that name, with the array as `obj`. The schema allows only the four bounds there.
- ReadWestBoundLongitude, ReadSouthBoundLatitude, ReadEastBoundLongitude and ReadNorthBoundLatitude work on a four-slot array with empty slots. A JavaScript array instead starts with length 0 and grows as indices are written, so the array's `length` is not modelled.
- ReadDimension and ReadBoundingBox require an existing map and, for `Dimension`, a `name` attribute. Without them the library throws a `TypeError` on dereference. The exception itself is not modelled.
- ParseInt, ReadLayerLimit, ReadMaxWidth, ReadMaxHeight and ParseIntDecimal: results are exact integers, where JavaScript stores a double (`"99999999999999999999"` gives 1e20 and `"-0"` gives -0). JavaScript's rounding to double precision (beyond 2^53, or to `Infinity` for very long digit strings) and the sign of `-0` are not modelled.
- TrimStart: the white-space set is that of ECMAScript 5.1 with the Unicode space separators of today. U+180E, which older engines also skip, is not included.
- ToLower: only ASCII letters are lowercased. JavaScript's full Unicode case mapping is not modelled.
- A `Keyword` with no keyword list on the object is dropped silently, as in the library.
- InsertDimension and FileBoundingBox: `obj.dimensions` and `obj.bbox` are plain JavaScript objects, not pure maps. A dimension whose name lowercases to `__proto__`, or a bounding box with `CRS="__proto__"`, sets the object's prototype instead of creating an own key. Every missing key then resolves through that record. The model files such a record under an ordinary key, so InsertDimensionKeyed and FileBoundingBoxKeyed do not describe JavaScript for that key. The dimension map, the bounding-box map and the keyword list are values in the model, while JavaScript updates shared objects in place (property assignment, `push`), so aliasing of those objects between several owners is not represented.
