/**
 * The element readers that the WMS 1.3.0 Capabilities format (OGC 06-042)
 * adds to, or redefines over, the common v1 (WMS 1.x) readers: each takes an
 * element and the object that the parent element's reader passed down, and
 * writes what it reads into that object.
 */
module WmsCapabilitiesV13 {
  import opened Wrappers
  import opened JsStrings
  import opened JsParseInt

  // ---------------------------------------------------------------- elements

  /**
   * An XML element as the readers see it: its local name, its attributes,
   * its text content (what `getChildValue` returns: the text and CDATA
   * children, concatenated) and its child elements in document order.
   */
  datatype Node = Node(tag: string, attributes: map<string, string>, text: string, children: seq<Node>)

  /** `node.getAttribute(name)`: `None` stands for the `null` of a missing attribute. */
  function GetAttribute(node: Node, name: string): Option<string> {
    if name in node.attributes then Some(node.attributes[name]) else None
  }

  // -------------------------------------------------------------- dimensions

  /** The record of a `Dimension` element (section 7.2.4.6.10 and Annex C of the standard). */
  datatype Dimension = Dimension(
    name: string,
    units: Option<string>,
    unitsymbol: Option<string>,
    nearestVal: bool,
    multipleVal: bool,
    default: string,
    current: bool,
    values: seq<string>)

  /** A boolean attribute of a dimension: only the literal `"1"` is true (`=== "1"`). */
  predicate IsOne(a: Option<string>) {
    a == Some("1")
  }

  /** `a || ""`: a missing attribute and the empty string are both falsy and give `""`. */
  function OrEmpty(a: Option<string>): (r: string)
    ensures r == "" <==> a == None || a == Some("")
    ensures a.Some? && a.value != "" ==> r == a.value
  {
    match a
    case Some(s) => s
    case None => ""
  }

  /** The key a `Dimension` element is filed under: its `name` attribute, lowercased. */
  function DimensionKey(node: Node): string
    requires "name" in node.attributes
  {
    ToLower(node.attributes["name"])
  }

  /** The record the `Dimension` reader builds from an element. */
  function ReadDimensionRecord(node: Node): (d: Dimension)
    requires "name" in node.attributes
    ensures d.name == DimensionKey(node)
    ensures d.units == GetAttribute(node, "units") && d.unitsymbol == GetAttribute(node, "unitSymbol")
    ensures d.nearestVal <==> GetAttribute(node, "nearestValue") == Some("1")
    ensures d.multipleVal <==> GetAttribute(node, "multipleValues") == Some("1")
    ensures d.current <==> GetAttribute(node, "current") == Some("1")
    ensures d.default == "" <==> GetAttribute(node, "default") in {None, Some("")}
    ensures d.default != "" ==> GetAttribute(node, "default") == Some(d.default)
  {
    Dimension(
      name := DimensionKey(node),
      units := GetAttribute(node, "units"),
      unitsymbol := GetAttribute(node, "unitSymbol"),
      nearestVal := IsOne(GetAttribute(node, "nearestValue")),
      multipleVal := IsOne(GetAttribute(node, "multipleValues")),
      default := OrEmpty(GetAttribute(node, "default")),
      current := IsOne(GetAttribute(node, "current")),
      values := Split(node.text, ','))
  }

  /**
   * The values of a dimension are exactly the comma-separated pieces of its
   * text: joined with commas they give the text back, none holds a comma, and
   * there is one more of them than there are commas (so empty text gives `[""]`).
   */
  lemma DimensionValues(node: Node)
    requires "name" in node.attributes
    ensures Join(ReadDimensionRecord(node).values, ',') == node.text
    ensures forall i :: 0 <= i < |ReadDimensionRecord(node).values| ==> ',' !in ReadDimensionRecord(node).values[i]
    ensures |ReadDimensionRecord(node).values| == Count(node.text, ',') + 1
  {
    JoinSplit(node.text, ',');
    SplitPiecesFree(node.text, ',');
    SplitLength(node.text, ',');
  }

  /** `obj.dimensions[dim.name] = dim`. */
  function InsertDimension(m: map<string, Dimension>, node: Node): (r: map<string, Dimension>)
    requires "name" in node.attributes
    ensures r.Keys == m.Keys + {DimensionKey(node)}
    ensures r[DimensionKey(node)] == ReadDimensionRecord(node)
    ensures forall k :: k in m && k != DimensionKey(node) ==> r[k] == m[k]
  {
    m[DimensionKey(node) := ReadDimensionRecord(node)]
  }

  /** Every dimension is filed under its own name, and every name is in lower case. */
  ghost predicate DimensionsKeyed(m: map<string, Dimension>) {
    forall k :: k in m ==> m[k].name == k && ToLower(k) == k
  }

  /** The `Dimension` reader keeps every dimension filed under its own lower-case name. */
  lemma {:induction false} InsertDimensionKeyed(m: map<string, Dimension>, node: Node)
    requires "name" in node.attributes
    requires DimensionsKeyed(m)
    ensures DimensionsKeyed(InsertDimension(m, node))
  {
    ToLowerIsLower(node.attributes["name"]);
  }

  /** A later `Dimension` whose name equals an earlier one's up to case replaces it. */
  lemma SameNameOverwrites(m: map<string, Dimension>, first: Node, second: Node)
    requires "name" in first.attributes && "name" in second.attributes
    requires EqualIgnoringCase(first.attributes["name"], second.attributes["name"])
    ensures InsertDimension(InsertDimension(m, first), second) == InsertDimension(m, second)
  {
    ToLowerEqualIff(first.attributes["name"], second.attributes["name"]);
  }

  /** Dimensions whose names differ other than in case are independent: their order does not matter. */
  lemma DifferentNamesCommute(m: map<string, Dimension>, first: Node, second: Node)
    requires "name" in first.attributes && "name" in second.attributes
    requires !EqualIgnoringCase(first.attributes["name"], second.attributes["name"])
    ensures InsertDimension(InsertDimension(m, first), second) == InsertDimension(InsertDimension(m, second), first)
  {
    ToLowerEqualIff(first.attributes["name"], second.attributes["name"]);
  }

  // ---------------------------------------------------------------- keywords

  /** The record of a `Keyword` element: its text and its `vocabulary` attribute. */
  datatype Keyword = Keyword(value: string, vocabulary: Option<string>)

  function ReadKeywordRecord(node: Node): (k: Keyword)
    ensures k.value == node.text && k.vocabulary == GetAttribute(node, "vocabulary")
  {
    Keyword(node.text, GetAttribute(node, "vocabulary"))
  }

  /** `if (obj.keywords) { obj.keywords.push(keyword); }`: a missing list stays missing. */
  function AppendKeyword(keywords: Option<seq<Keyword>>, k: Keyword): (r: Option<seq<Keyword>>)
    ensures r.Some? <==> keywords.Some?
    ensures keywords.None? ==> r == keywords
    ensures keywords.Some? ==>
      |r.value| == |keywords.value| + 1 && r.value[..|keywords.value|] == keywords.value && r.value[|keywords.value|] == k
  {
    match keywords
    case None => None
    case Some(ks) => Some(ks + [k])
  }

  // ---------------------------------------------------------- bounding boxes

  /**
   * A bounding box record: its coordinate reference system and the other
   * properties the common v1 (WMS 1.x) `BoundingBox` reader computed, which the 1.3 reader
   * carries unchanged.
   */
  datatype BBox = BBox(srs: Option<string>, fields: map<string, string>)

  /** The property name `obj.bbox[srs]` uses: a `null` key is converted to the string `"null"`. */
  function BBoxKey(srs: Option<string>): (r: string)
    ensures srs.Some? ==> r == srs.value
    ensures r == "null" <==> srs == None || srs == Some("null")
  {
    match srs
    case Some(s) => s
    case None => "null"
  }

  /** `bbox.srs = node.getAttribute("CRS"); obj.bbox[bbox.srs] = bbox`. */
  function FileBoundingBox(m: map<string, BBox>, node: Node, base: BBox): (r: map<string, BBox>)
    ensures r.Keys == m.Keys + {BBoxKey(GetAttribute(node, "CRS"))}
    ensures r[BBoxKey(GetAttribute(node, "CRS"))] == base.(srs := GetAttribute(node, "CRS"))
    ensures forall k :: k in m && k != BBoxKey(GetAttribute(node, "CRS")) ==> r[k] == m[k]
    ensures "CRS" in node.attributes ==>
      var crs := node.attributes["CRS"]; crs in r && r[crs].srs == Some(crs) && r[crs].fields == base.fields
  {
    var crs := GetAttribute(node, "CRS");
    m[BBoxKey(crs) := base.(srs := crs)]
  }

  /** Every bounding box is filed under the key its own `srs` gives. */
  ghost predicate BBoxesKeyed(m: map<string, BBox>) {
    forall k :: k in m ==> BBoxKey(m[k].srs) == k
  }

  /** The `BoundingBox` reader keeps every bounding box filed under its own reference system. */
  lemma FileBoundingBoxKeyed(m: map<string, BBox>, node: Node, base: BBox)
    requires BBoxesKeyed(m)
    ensures BBoxesKeyed(FileBoundingBox(m, node, base))
  {
  }

  // ------------------------------------------------ geographic bounding box

  const West := "westBoundLongitude"
  const South := "southBoundLatitude"
  const East := "eastBoundLongitude"
  const North := "northBoundLatitude"

  /** The slot each of the four leaf readers writes: west 0, south 1, east 2, north 3. */
  function BoundSlot(tag: string): (r: Option<nat>)
    ensures r.Some? ==> r.value < 4
  {
    if tag == West then Some(0)
    else if tag == South then Some(1)
    else if tag == East then Some(2)
    else if tag == North then Some(3)
    else None
  }

  function BoundTag(k: nat): string
    requires k < 4
  {
    [West, South, East, North][k]
  }

  /** Slots and tags correspond one to one. */
  lemma BoundSlotTag(tag: string, k: nat)
    requires k < 4
    ensures BoundSlot(tag) == Some(k) <==> tag == BoundTag(k)
  {
  }

  /** The array `EX_GeographicBoundingBox` starts from. */
  function EmptyBounds(): seq<Option<string>> {
    [None, None, None, None]
  }

  /** What the child `c` does to the four slots: a leaf writes its text into its slot; any other element writes nothing. */
  function ApplyBound(slots: seq<Option<string>>, c: Node): (r: seq<Option<string>>)
    requires |slots| == 4
    ensures |r| == 4
    ensures forall j :: 0 <= j < 4 ==> r[j] == if BoundSlot(c.tag) == Some(j) then Some(c.text) else slots[j]
  {
    match BoundSlot(c.tag)
    case Some(k) => slots[k := Some(c.text)]
    case None => slots
  }

  /** No child of `cs` is read into slot `j`. */
  predicate NoChildFor(cs: seq<Node>, j: nat) {
    forall c :: c in cs ==> BoundSlot(c.tag) != Some(j)
  }

  /** The children read in document order; a slot no child is read into keeps its content. */
  function FoldBounds(slots: seq<Option<string>>, cs: seq<Node>): (r: seq<Option<string>>)
    requires |slots| == 4
    ensures |r| == 4
    ensures forall j :: 0 <= j < 4 && NoChildFor(cs, j) ==> r[j] == slots[j]
  {
    if cs == [] then slots else ApplyBound(FoldBounds(slots, cs[..|cs| - 1]), cs[|cs| - 1])
  }

  /** The text of the last child with the given tag, if any. */
  function LastText(cs: seq<Node>, tag: string): Option<string> {
    if cs == [] then None
    else if cs[|cs| - 1].tag == tag then Some(cs[|cs| - 1].text)
    else LastText(cs[..|cs| - 1], tag)
  }

  /** Slot `k` ends up holding the text of the last child for that slot, and is untouched when there is none. */
  lemma {:induction false} FoldBoundsSlot(slots: seq<Option<string>>, cs: seq<Node>, k: nat)
    requires |slots| == 4 && k < 4
    ensures FoldBounds(slots, cs)[k] == if LastText(cs, BoundTag(k)).Some? then LastText(cs, BoundTag(k)) else slots[k]
  {
    if cs != [] {
      FoldBoundsSlot(slots, cs[..|cs| - 1], k);
      BoundSlotTag(cs[|cs| - 1].tag, k);
    }
  }

  lemma {:induction false} LastTextOfOnly(cs: seq<Node>, tag: string, c: Node)
    requires c in cs && c.tag == tag
    requires forall d :: d in cs && d.tag == tag ==> d == c
    ensures LastText(cs, tag) == Some(c.text)
  {
    var last := cs[|cs| - 1];
    if last.tag != tag {
      assert cs == cs[..|cs| - 1] + [last];
      LastTextOfOnly(cs[..|cs| - 1], tag, c);
    }
  }

  lemma {:induction false} LastTextOfNone(cs: seq<Node>, tag: string)
    requires forall d :: d in cs ==> d.tag != tag
    ensures LastText(cs, tag) == None
  {
    if cs != [] {
      assert cs[|cs| - 1] in cs;
      LastTextOfNone(cs[..|cs| - 1], tag);
    }
  }

  /** All children that hold one bound are the same element value. */
  ghost predicate UniqueBounds(cs: seq<Node>) {
    forall d, e :: d in cs && e in cs && BoundSlot(d.tag).Some? && d.tag == e.tag ==> d == e
  }

  /**
   * When all children for one bound are the same element value, slot `k` holds
   * that element's text, and stays empty when there is no such child.
   */
  lemma {:induction false} BoundsOfUniqueChildren(cs: seq<Node>, k: nat)
    requires UniqueBounds(cs) && k < 4
    ensures forall c :: c in cs && c.tag == BoundTag(k) ==> FoldBounds(EmptyBounds(), cs)[k] == Some(c.text)
    ensures (forall c :: c in cs ==> c.tag != BoundTag(k)) ==> FoldBounds(EmptyBounds(), cs)[k] == None
  {
    FoldBoundsSlot(EmptyBounds(), cs, k);
    forall c | c in cs && c.tag == BoundTag(k) ensures FoldBounds(EmptyBounds(), cs)[k] == Some(c.text) {
      BoundSlotTag(c.tag, k);
      LastTextOfOnly(cs, BoundTag(k), c);
    }
    if forall c :: c in cs ==> c.tag != BoundTag(k) {
      LastTextOfNone(cs, BoundTag(k));
    }
  }

  /** The order of the children does not matter when all children for one bound are the same element value. */
  lemma {:induction false} BoundsOrderIndependent(cs1: seq<Node>, cs2: seq<Node>)
    requires multiset(cs1) == multiset(cs2)
    requires UniqueBounds(cs1)
    ensures FoldBounds(EmptyBounds(), cs1) == FoldBounds(EmptyBounds(), cs2)
  {
    assert forall c :: c in cs1 <==> c in cs2 by {
      forall c ensures c in cs1 <==> c in cs2 {
        assert c in cs1 <==> c in multiset(cs1);
        assert c in cs2 <==> c in multiset(cs2);
      }
    }
    forall k | 0 <= k < 4 ensures FoldBounds(EmptyBounds(), cs1)[k] == FoldBounds(EmptyBounds(), cs2)[k] {
      BoundsOfUniqueChildren(cs1, k);
      BoundsOfUniqueChildren(cs2, k);
    }
  }

  /** The four bounds, read in any order, give `[west, south, east, north]`. */
  lemma {:induction false} FourBoundsInAnyOrder(cs: seq<Node>, w: Node, s: Node, e: Node, n: Node)
    requires w.tag == West && s.tag == South && e.tag == East && n.tag == North
    requires multiset(cs) == multiset([w, s, e, n])
    ensures FoldBounds(EmptyBounds(), cs) == [Some(w.text), Some(s.text), Some(e.text), Some(n.text)]
  {
    FourBoundsUnique(cs, w, s, e, n);
    var r := FoldBounds(EmptyBounds(), cs);
    assert r[0] == Some(w.text) by { BoundsOfUniqueChildren(cs, 0); }
    assert r[1] == Some(s.text) by { BoundsOfUniqueChildren(cs, 1); }
    assert r[2] == Some(e.text) by { BoundsOfUniqueChildren(cs, 2); }
    assert r[3] == Some(n.text) by { BoundsOfUniqueChildren(cs, 3); }
    FourSlots(r, Some(w.text), Some(s.text), Some(e.text), Some(n.text));
  }

  lemma FourSlots(r: seq<Option<string>>, a: Option<string>, b: Option<string>, c: Option<string>, d: Option<string>)
    requires |r| == 4 && r[0] == a && r[1] == b && r[2] == c && r[3] == d
    ensures r == [a, b, c, d]
  {
  }

  lemma FourBoundsUnique(cs: seq<Node>, w: Node, s: Node, e: Node, n: Node)
    requires w.tag == West && s.tag == South && e.tag == East && n.tag == North
    requires multiset(cs) == multiset([w, s, e, n])
    ensures w in cs && s in cs && e in cs && n in cs
    ensures UniqueBounds(cs)
  {
    forall c | c in cs ensures c == w || c == s || c == e || c == n {
      assert c in multiset(cs);
    }
    assert w in multiset(cs) && s in multiset(cs) && e in multiset(cs) && n in multiset(cs);
  }

  // ------------------------------------------------------------- leaf readers

  /** `westBoundLongitude`: `obj[0] = text`, where `obj` is the `llbbox` array. */
  method ReadWestBoundLongitude(node: Node, box: array<Option<string>>)
    requires box.Length == 4
    modifies box
    ensures box[..] == old(box[..])[0 := Some(node.text)]
  {
    box[0] := Some(node.text);
  }

  /** `southBoundLatitude`: `obj[1] = text`. */
  method ReadSouthBoundLatitude(node: Node, box: array<Option<string>>)
    requires box.Length == 4
    modifies box
    ensures box[..] == old(box[..])[1 := Some(node.text)]
  {
    box[1] := Some(node.text);
  }

  /** `eastBoundLongitude`: `obj[2] = text`. */
  method ReadEastBoundLongitude(node: Node, box: array<Option<string>>)
    requires box.Length == 4
    modifies box
    ensures box[..] == old(box[..])[2 := Some(node.text)]
  {
    box[2] := Some(node.text);
  }

  /** `northBoundLatitude`: `obj[3] = text`. */
  method ReadNorthBoundLatitude(node: Node, box: array<Option<string>>)
    requires box.Length == 4
    modifies box
    ensures box[..] == old(box[..])[3 := Some(node.text)]
  {
    box[3] := Some(node.text);
  }

  /** The dispatch of one child of `EX_GeographicBoundingBox` to its reader by tag. */
  method ReadBound(child: Node, box: array<Option<string>>)
    requires box.Length == 4
    modifies box
    ensures box[..] == ApplyBound(old(box[..]), child)
  {
    if child.tag == West {
      ReadWestBoundLongitude(child, box);
    } else if child.tag == South {
      ReadSouthBoundLatitude(child, box);
    } else if child.tag == East {
      ReadEastBoundLongitude(child, box);
    } else if child.tag == North {
      ReadNorthBoundLatitude(child, box);
    }
  }

  // -------------------------------------------------------------- the object

  /** The fields of an `Accumulator`, with the `llbbox` array's contents in place of the array. */
  datatype Snapshot = Snapshot(
    dimensions: Option<map<string, Dimension>>,
    keywords: Option<seq<Keyword>>,
    bbox: Option<map<string, BBox>>,
    llbbox: Option<seq<Option<string>>>,
    layerLimit: Option<Number>,
    maxWidth: Option<Number>,
    maxHeight: Option<Number>)

  /**
   * The object a parent element's reader passes down: the capabilities
   * service or a layer. A field that is `None` (or a `null` array) is a
   * property the object does not have.
   */
  class Accumulator {
    var dimensions: Option<map<string, Dimension>>
    var keywords: Option<seq<Keyword>>
    var bbox: Option<map<string, BBox>>
    var llbbox: array?<Option<string>>
    var layerLimit: Option<Number>
    var maxWidth: Option<Number>
    var maxHeight: Option<Number>

    ghost predicate Valid()
      reads this
    {
      llbbox != null ==> llbbox.Length == 4
    }

    ghost function State(): Snapshot
      reads this, llbbox
    {
      Snapshot(dimensions, keywords, bbox, if llbbox == null then None else Some(llbbox[..]),
               layerLimit, maxWidth, maxHeight)
    }

    /**
     * A valid object holds four slots once it has a geographic bounding box,
     * so further bound children can be read into them, keeping every slot
     * that none of them is read into.
     */
    lemma HeldBoundsTakeMore(cs: seq<Node>)
      requires Valid() && State().llbbox.Some?
      ensures |State().llbbox.value| == 4
      ensures forall j :: 0 <= j < 4 && NoChildFor(cs, j) ==>
        FoldBounds(State().llbbox.value, cs)[j] == State().llbbox.value[j]
    {
    }

    /** An object with the given collections, as the common v1 (WMS 1.x) readers create them, and none of the other properties. */
    constructor (dimensions: Option<map<string, Dimension>>, keywords: Option<seq<Keyword>>, bbox: Option<map<string, BBox>>)
      ensures Valid()
      ensures State() == Snapshot(dimensions, keywords, bbox, None, None, None, None)
    {
      this.dimensions := dimensions;
      this.keywords := keywords;
      this.bbox := bbox;
      llbbox := null;
      layerLimit, maxWidth, maxHeight := None, None, None;
    }

    /** `LayerLimit`: `obj.layerLimit = parseInt(text)`. */
    method ReadLayerLimit(node: Node)
      requires Valid()
      modifies this
      ensures Valid() && llbbox == old(llbbox)
      ensures State() == old(State()).(layerLimit := Some(ParseInt(node.text)))
    {
      layerLimit := Some(ParseInt(node.text));
    }

    /** `MaxWidth`: `obj.maxWidth = parseInt(text)`. */
    method ReadMaxWidth(node: Node)
      requires Valid()
      modifies this
      ensures Valid() && llbbox == old(llbbox)
      ensures State() == old(State()).(maxWidth := Some(ParseInt(node.text)))
    {
      maxWidth := Some(ParseInt(node.text));
    }

    /** `MaxHeight`: `obj.maxHeight = parseInt(text)`. */
    method ReadMaxHeight(node: Node)
      requires Valid()
      modifies this
      ensures Valid() && llbbox == old(llbbox)
      ensures State() == old(State()).(maxHeight := Some(ParseInt(node.text)))
    {
      maxHeight := Some(ParseInt(node.text));
    }

    /**
     * `BoundingBox`: `base` is the record the common v1 (WMS 1.x) reader built from the
     * element; it is filed under the element's `CRS` attribute.
     */
    method ReadBoundingBox(node: Node, base: BBox)
      requires Valid() && bbox.Some?
      modifies this
      ensures Valid() && llbbox == old(llbbox)
      ensures State() == old(State()).(bbox := Some(FileBoundingBox(old(bbox.value), node, base)))
    {
      var b := base.(srs := GetAttribute(node, "CRS"));
      bbox := Some(bbox.value[BBoxKey(b.srs) := b]);
    }

    /**
     * `EX_GeographicBoundingBox`: a new, empty `llbbox` array, then each
     * child read into that array in document order.
     */
    method ReadExGeographicBoundingBox(node: Node)
      requires Valid()
      modifies this
      ensures Valid() && llbbox != null && fresh(llbbox)
      ensures State() == old(State()).(llbbox := Some(FoldBounds(EmptyBounds(), node.children)))
    {
      var box := new Option<string>[4](_ => None);
      llbbox := box;
      assert box[..] == EmptyBounds();
      var i := 0;
      while i < |node.children|
        invariant 0 <= i <= |node.children|
        invariant box[..] == FoldBounds(EmptyBounds(), node.children[..i])
        modifies box
      {
        ReadBound(node.children[i], box);
        assert node.children[..i + 1][..i] == node.children[..i];
        i := i + 1;
      }
      assert node.children[..i] == node.children;
    }

    /** `Dimension`: the record filed under its lowercased name. */
    method ReadDimension(node: Node)
      requires Valid() && dimensions.Some? && "name" in node.attributes
      modifies this
      ensures Valid() && llbbox == old(llbbox)
      ensures State() == old(State()).(dimensions := Some(InsertDimension(old(dimensions.value), node)))
    {
      var dim := ReadDimensionRecord(node);
      dimensions := Some(dimensions.value[dim.name := dim]);
    }

    /** `Keyword`: appended when the object has a keyword list; nothing happens otherwise. */
    method ReadKeyword(node: Node)
      requires Valid()
      modifies this
      ensures Valid() && llbbox == old(llbbox)
      ensures State() == old(State()).(keywords := AppendKeyword(old(keywords), ReadKeywordRecord(node)))
      ensures old(keywords).None? ==> State() == old(State())
    {
      var keyword := ReadKeywordRecord(node);
      if keywords.Some? {
        keywords := Some(keywords.value + [keyword]);
      }
    }
  }
}
