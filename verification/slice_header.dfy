// Slice headers: the symbols that tell where a slice lies and which tables it uses.

module SliceHeader {
  import opened Basics
  import opened RangeInterval
  import opened RangeSymbols
  import opened RangeContexts
  import opened RangeScript
  import opened RangeNumbers
  import opened StreamModel
  import opened SliceRaster

  const UINT32_MAX: nat := 0xffff_ffff

  datatype HeaderValues = HeaderValues(
    x: nat, y: nat, width: nat, height: nat,
    indexes: seq<nat>,
    pictureStructure: nat, sarNum: nat, sarDen: nat)

  function RectOf(v: HeaderValues): Rect {
    Rect(v.x, v.y, v.width, v.height)
  }

  /** What both sides demand before a header describes a slice of the stream. */
  function RasterStatus(s: StreamParameters, v: HeaderValues): Status {
    if v.width == 0 || v.height == 0 then Err(SyntaxError)
    else if !Inside(RectOf(v), s.numHSlices, s.numVSlices) then Err(SyntaxError)
    else if v.indexes == [] then Err(SyntaxError)
    else if exists i <- v.indexes :: |s.quantTableSets| <= i then Err(SyntaxError)
    else if 3 < v.pictureStructure then Err(SyntaxError)
    else Ok(())
  }

  function HeaderNumbers(v: HeaderValues): seq<nat>
    requires 0 < v.width && 0 < v.height
  {
    [v.x, v.y, v.width - 1, v.height - 1] + (v.indexes + [v.pictureStructure, v.sarNum, v.sarDen])
  }

  /** What the writer writes, or why it refuses. */
  function HeaderScript(s: StreamParameters, v: HeaderValues): Result<seq<Operation>> {
    var _ :- RasterStatus(s, v);
    if |v.indexes| != QuantTableSetIndexCount(s) then Err(InvalidArgument)
    else if (v.sarNum == 0) != (v.sarDen == 0) then Err(InvalidArgument)
    else Ok(Numbers(HeaderNumbers(v)))
  }

  /** The table choices, each checked as it is read. */
  function ReadIndexes(d: Decoder, s: StreamParameters, got: seq<nat>, count: nat): (r: Result<(seq<nat>, Decoder)>)
    ensures r.Ok? && |got| <= count ==> |r.value.0| == count
    decreases count - |got|
  {
    if count <= |got| then Ok((got, d))
    else
      var (index, d') :- ReadUnsigned(d);
      if UINT32_MAX < index then Err(SyntaxError)
      else if |s.quantTableSets| <= index then Err(SyntaxError)
      else ReadIndexes(d', s, got + [index], count)
  }

  /** Position and size on the raster. */
  function ReadRectangle(d: Decoder, s: StreamParameters): Result<(Rect, Decoder)> {
    var (x, d1) :- ReadUnsigned(d);
    if s.numHSlices < x || UINT32_MAX < x then Err(SyntaxError)
    else
      var (y, d2) :- ReadUnsigned(d1);
      if s.numVSlices < y || UINT32_MAX < y then Err(SyntaxError)
      else
        var (w, d3) :- ReadUnsigned(d2);
        if UINT32_MAX <= w then Err(SyntaxError)
        else
          var (h, d4) :- ReadUnsigned(d3);
          if UINT32_MAX <= h then Err(SyntaxError)
          else if s.numHSlices - x < w + 1 || s.numVSlices - y < h + 1 then Err(SyntaxError)
          else Ok((Rect(x, y, w + 1, h + 1), d4))
  }

  /** Picture structure and aspect ratio; half an aspect ratio is none. */
  function ReadPicture(d: Decoder): Result<(nat, nat, nat, Decoder)> {
    var (structure, d1) :- ReadUnsigned(d);
    if 3 < structure then Err(SyntaxError)
    else
      var (num, d2) :- ReadUnsigned(d1);
      var (den, d3) :- ReadUnsigned(d2);
      if num == 0 || den == 0 then Ok((structure, 0, 0, d3)) else Ok((structure, num, den, d3))
  }

  function ReadHeader(d: Decoder, s: StreamParameters): Result<(HeaderValues, Decoder)> {
    var (r, d1) :- ReadRectangle(d, s);
    var (indexes, d2) :- ReadIndexes(d1, s, [], QuantTableSetIndexCount(s));
    var (structure, num, den, d3) :- ReadPicture(d2);
    Ok((HeaderValues(r.x, r.y, r.width, r.height, indexes, structure, num, den), d3))
  }

  /** Reading a header and applying it to the raster. */
  function ReadDescriptor(d: Decoder, s: StreamParameters): Result<(HeaderValues, Decoder)> {
    var (v, d') :- ReadHeader(d, s);
    var _ :- RasterStatus(s, v);
    Ok((v, d'))
  }

  lemma {:induction false} IndexesReadBack(s: StreamParameters, got: seq<nat>, indexes: seq<nat>, rest: seq<Operation>,
                                           d: Decoder, final: Encoder)
    returns (d': Decoder)
    requires got <= indexes && forall i <- indexes :: i < |s.quantTableSets| && i <= UINT32_MAX
    requires Scripted(d, Numbers(indexes[|got|..]) + rest, final)
    ensures ReadIndexes(d, s, got, |indexes|) == Ok((indexes, d'))
    ensures Scripted(d', rest, final) && d'.payload == d.payload
    decreases |indexes| - |got|
  {
    hide Scripted, ReadUnsigned, Number;
    if |got| == |indexes| {
      assert got == indexes && Numbers(indexes[|got|..]) + rest == rest;
      d' := d;
    } else {
      var index := indexes[|got|];
      assert index in indexes && got + [index] <= indexes;
      assert indexes[|got|..] == [index] + indexes[|got| + 1..];
      FirstNumber(index, indexes[|got| + 1..], rest);
      var d1 := NumberReadsBack(index, Numbers(indexes[|got| + 1..]) + rest, d, final);
      d' := IndexesReadBack(s, got + [index], indexes, rest, d1, final);
    }
  }

  lemma RectangleReadsBack(s: StreamParameters, r: Rect, rest: seq<Operation>, d: Decoder, final: Encoder) returns (d': Decoder)
    requires Inside(r, s.numHSlices, s.numVSlices) && s.numHSlices <= UINT32_MAX && s.numVSlices <= UINT32_MAX
    requires Scripted(d, Numbers([r.x, r.y, r.width - 1, r.height - 1]) + rest, final)
    ensures ReadRectangle(d, s) == Ok((r, d'))
    ensures Scripted(d', rest, final) && d'.payload == d.payload
  {
    hide Scripted, ReadUnsigned, Number, Numbers;
    FourNumbers(r.x, r.y, r.width - 1, r.height - 1, rest);
    var rest3 := [Number(r.height - 1)] + rest;
    var rest2 := [Number(r.width - 1)] + rest3;
    var d1 := NumberReadsBack(r.x, [Number(r.y)] + rest2, d, final);
    var d2 := NumberReadsBack(r.y, rest2, d1, final);
    var d3 := NumberReadsBack(r.width - 1, rest3, d2, final);
    d' := NumberReadsBack(r.height - 1, rest, d3, final);
  }

  lemma FourNumbers(a: nat, b: nat, c: nat, e: nat, rest: seq<Operation>)
    ensures Numbers([a, b, c, e]) + rest == [Number(a)] + ([Number(b)] + ([Number(c)] + ([Number(e)] + rest)))
  {
    hide Number;
    assert [a, b, c, e][1..] == [b, c, e] && [b, c, e][1..] == [c, e] && [c, e][1..] == [e] && [e][1..] == [];
    assert Numbers([a, b, c, e]) == [Number(a)] + Numbers([b, c, e]);
    assert Numbers([b, c, e]) == [Number(b)] + Numbers([c, e]);
    assert Numbers([c, e]) == [Number(c)] + Numbers([e]);
    assert Numbers([e]) == [Number(e)] + Numbers([]);
  }

  lemma ThreeNumbers(a: nat, b: nat, c: nat, rest: seq<Operation>)
    ensures Numbers([a, b, c]) + rest == [Number(a)] + ([Number(b)] + ([Number(c)] + rest))
  {
    hide Number;
    assert [a, b, c][1..] == [b, c] && [b, c][1..] == [c] && [c][1..] == [];
    assert Numbers([a, b, c]) == [Number(a)] + Numbers([b, c]);
    assert Numbers([b, c]) == [Number(b)] + Numbers([c]);
    assert Numbers([c]) == [Number(c)] + Numbers([]);
  }

  lemma PictureReadsBack(structure: nat, num: nat, den: nat, rest: seq<Operation>, d: Decoder, final: Encoder) returns (d': Decoder)
    requires structure <= 3 && (num == 0 <==> den == 0)
    requires Scripted(d, Numbers([structure, num, den]) + rest, final)
    ensures ReadPicture(d) == Ok((structure, num, den, d'))
    ensures Scripted(d', rest, final) && d'.payload == d.payload
  {
    hide Scripted, ReadUnsigned, Number, Numbers;
    ThreeNumbers(structure, num, den, rest);
    var rest2 := [Number(den)] + rest;
    var d1 := NumberReadsBack(structure, [Number(num)] + rest2, d, final);
    var d2 := NumberReadsBack(num, rest2, d1, final);
    d' := NumberReadsBack(den, rest, d2, final);
  }

  /** The counts fit the 32 bits they are stored in. */
  predicate IsSized(s: StreamParameters) {
    s.numHSlices <= UINT32_MAX && s.numVSlices <= UINT32_MAX && |s.quantTableSets| <= UINT32_MAX
  }

  lemma HeaderNumbersSplit(v: HeaderValues, rest: seq<Operation>)
    requires 0 < v.width && 0 < v.height
    ensures Numbers(HeaderNumbers(v)) + rest ==
            Numbers([v.x, v.y, v.width - 1, v.height - 1]) +
            (Numbers(v.indexes) + (Numbers([v.pictureStructure, v.sarNum, v.sarDen]) + rest))
  {
    hide Numbers;
    var picture := [v.pictureStructure, v.sarNum, v.sarDen];
    NumbersSplit(v.indexes, picture);
    NumbersSplit([v.x, v.y, v.width - 1, v.height - 1], v.indexes + picture);
    AppendAssoc(Numbers(v.indexes), Numbers(picture), rest);
    AppendAssoc(Numbers([v.x, v.y, v.width - 1, v.height - 1]), Numbers(v.indexes) + Numbers(picture), rest);
  }

  /** A written header describes the same slice when it is read. */
  lemma HeaderReadsBack(s: StreamParameters, v: HeaderValues, ops: seq<Operation>, rest: seq<Operation>, d: Decoder, final: Encoder)
    returns (d': Decoder)
    requires IsSized(s) && HeaderScript(s, v) == Ok(ops)
    requires Scripted(d, ops + rest, final)
    ensures ReadDescriptor(d, s) == Ok((v, d'))
    ensures Scripted(d', rest, final) && d'.payload == d.payload
  {
    hide Scripted, Numbers, ReadRectangle, ReadPicture, ReadIndexes;
    var picture := [v.pictureStructure, v.sarNum, v.sarDen];
    HeaderNumbersSplit(v, rest);
    var d1 := RectangleReadsBack(s, RectOf(v), Numbers(v.indexes) + (Numbers(picture) + rest), d, final);
    assert v.indexes[0..] == v.indexes;
    var d2 := IndexesReadBack(s, [], v.indexes, Numbers(picture) + rest, d1, final);
    d' := PictureReadsBack(v.pictureStructure, v.sarNum, v.sarDen, rest, d2, final);
  }
}
