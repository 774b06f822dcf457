/** Copying an interleaved image into one batch slot of a planar tensor. */
module PlanarBlob {

  /** `size_t` has 64 bits, `int` has 32. */
  const SIZE_LIMIT := 0x1_0000_0000_0000_0000
  const INT_LIMIT := 0x8000_0000

  // ---------------------------------------------------------------------------------------------
  // Tables laid out row by row
  // ---------------------------------------------------------------------------------------------

  function Flat(row: nat, column: nat, columns: nat): nat {
    row * columns + column
  }

  lemma RowsBefore(row: nat, other: nat, columns: nat)
    requires row < other
    ensures row * columns + columns <= other * columns
  {
    var between := other - row - 1;
    assert other * columns == (row + 1 + between) * columns == row * columns + columns + between * columns;
    assert between * columns >= 0;
  }

  lemma FlatBound(row: nat, column: nat, rows: nat, columns: nat)
    requires row < rows && column < columns
    ensures Flat(row, column, columns) < rows * columns
  {
    RowsBefore(row, rows, columns);
  }

  lemma FlatUnique(row: nat, column: nat, other: nat, place: nat, columns: nat)
    requires column < columns && place < columns
    requires Flat(row, column, columns) == Flat(other, place, columns)
    ensures row == other && column == place
  {
    if row < other {
      RowsBefore(row, other, columns);
    } else if other < row {
      RowsBefore(other, row, columns);
    }
  }

  lemma FlatOfDivision(k: nat, columns: nat)
    requires columns > 0
    ensures Flat(k / columns, k % columns, columns) == k
  {
  }

  lemma FlatSplit(row: nat, column: nat, columns: nat)
    requires column < columns
    ensures Flat(row, column, columns) / columns == row
    ensures Flat(row, column, columns) % columns == column
  {
    var k := Flat(row, column, columns);
    FlatOfDivision(k, columns);
    FlatUnique(k / columns, k % columns, row, column, columns);
  }

  lemma FlatJoin(k: nat, rows: nat, columns: nat)
    requires k < rows * columns
    ensures columns > 0 && k / columns < rows
    ensures Flat(k / columns, k % columns, columns) == k
  {
    FlatOfDivision(k, columns);
    if k / columns > rows {
      RowsBefore(rows, k / columns, columns);
    }
  }

  // ---------------------------------------------------------------------------------------------
  // Images and slots
  // ---------------------------------------------------------------------------------------------

  /** An image: row by row, pixel by pixel, with the channels of a pixel together. */
  datatype Image<T> = Image(width: nat, height: nat, channels: nat, data: seq<T>)

  predicate IsImage<T>(image: Image<T>) {
    |image.data| == (image.height * image.width) * image.channels
  }

  /** The value of channel c of the pixel in row h and column w. */
  function At<T>(image: Image<T>, h: nat, w: nat, c: nat): T
    requires IsImage(image) && h < image.height && w < image.width && c < image.channels
  {
    FlatBound(h, w, image.height, image.width);
    FlatBound(Flat(h, w, image.width), c, image.height * image.width, image.channels);
    image.data[Flat(Flat(h, w, image.width), c, image.channels)]
  }

  /** Where the tensor has channel c of the pixel in row h and column w, counted within its slot. */
  function CellIndex(c: nat, h: nat, w: nat, height: nat, width: nat): nat {
    Flat(c, Flat(h, w, width), height * width)
  }

  function SlotSize(width: nat, height: nat, channels: nat): nat {
    channels * (height * width)
  }

  function ToInt32(n: nat): int {
    var low := n % (2 * INT_LIMIT);
    if low < INT_LIMIT then low else low - 2 * INT_LIMIT
  }

  /** `int batchOffset`: a product of type `size_t`, cut to an `int`. */
  function Offset(batchIndex: nat, width: nat, height: nat, channels: nat): int {
    ToInt32((batchIndex * SlotSize(width, height, channels)) % SIZE_LIMIT)
  }

  /** The slot that holds every channel of the image as one plane. */
  function Planes<T>(image: Image<T>): (slot: seq<T>)
    requires IsImage(image)
    ensures |slot| == SlotSize(image.width, image.height, image.channels)
  {
    var plane := image.height * image.width;
    seq(image.channels * plane, k requires 0 <= k < image.channels * plane =>
      FlatJoin(k, image.channels, plane);
      FlatBound(k % plane, k / plane, plane, image.channels);
      image.data[Flat(k % plane, k / plane, image.channels)])
  }

  /** The interleaved data that a slot stands for. */
  function Interleaved<T>(slot: seq<T>, plane: nat, channels: nat): (data: seq<T>)
    requires |slot| == channels * plane
    ensures |data| == plane * channels
  {
    seq(plane * channels, j requires 0 <= j < plane * channels =>
      FlatJoin(j, plane, channels);
      FlatBound(j % channels, j / channels, channels, plane);
      slot[Flat(j % channels, j / channels, plane)])
  }

  function Written<T>(blob: seq<T>, offset: nat, slot: seq<T>): seq<T>
    requires offset + |slot| <= |blob|
  {
    blob[..offset] + slot + blob[offset + |slot|..]
  }

  // ---------------------------------------------------------------------------------------------
  // Properties
  // ---------------------------------------------------------------------------------------------

  /** Every cell of the slot holds its channel of its pixel. */
  lemma CellHoldsPixel<T>(image: Image<T>, c: nat, h: nat, w: nat)
    requires IsImage(image) && c < image.channels && h < image.height && w < image.width
    ensures CellIndex(c, h, w, image.height, image.width) < SlotSize(image.width, image.height, image.channels)
    ensures Planes(image)[CellIndex(c, h, w, image.height, image.width)] == At(image, h, w, c)
  {
    hide Flat, Planes;
    FlatBound(h, w, image.height, image.width);
    PlaneCell(image, c, Flat(h, w, image.width));
  }

  /**
   * In the tensor's and the image's own places: after the copy, the place of channel c, row h and column
   * w within the slot has value c of that pixel.
   */
  lemma BlobCell<T>(before: seq<T>, offset: nat, image: Image<T>, c: nat, h: nat, w: nat)
    returns (place: nat, source: nat)
    requires IsImage(image) && c < image.channels && h < image.height && w < image.width
    requires offset + |Planes(image)| <= |before|
    ensures place == offset + c * image.width * image.height + h * image.width + w
    ensures source == (h * image.width + w) * image.channels + c
    ensures place < |Written(before, offset, Planes(image))| && source < |image.data|
    ensures Written(before, offset, Planes(image))[place] == image.data[source]
  {
    hide Planes, IsImage;
    var pixel := Flat(h, w, image.width);
    var plane := image.height * image.width;
    var k := Flat(c, pixel, plane);
    FlatBound(h, w, image.height, image.width);
    PlaneCell(image, c, pixel);
    SourceIndex(c, image.width, image.height);
    place, source := offset + k, Flat(pixel, c, image.channels);
    WrittenAt(before, offset, Planes(image), k);
  }

  lemma WrittenAt<T>(before: seq<T>, offset: nat, slot: seq<T>, k: nat)
    requires offset + |slot| <= |before| && k < |slot|
    ensures |Written(before, offset, slot)| == |before| && Written(before, offset, slot)[offset + k] == slot[k]
  {
  }

  /** And no place outside the slot has changed. */
  lemma BlobElsewhere<T>(before: seq<T>, offset: nat, image: Image<T>, k: nat)
    requires IsImage(image) && offset + image.channels * (image.height * image.width) <= |before|
    requires k < |before| && !(offset <= k < offset + image.channels * (image.height * image.width))
    ensures |Planes(image)| == image.channels * (image.height * image.width)
    ensures |Written(before, offset, Planes(image))| == |before|
    ensures Written(before, offset, Planes(image))[k] == before[k]
  {
    hide Planes;
  }

  /** Different cells have different places. */
  lemma CellsApart(c: nat, h: nat, w: nat, d: nat, i: nat, x: nat, height: nat, width: nat)
    requires h < height && w < width && i < height && x < width
    requires CellIndex(c, h, w, height, width) == CellIndex(d, i, x, height, width)
    ensures c == d && h == i && w == x
  {
    FlatBound(h, w, height, width);
    FlatBound(i, x, height, width);
    FlatSplit(c, Flat(h, w, width), height * width);
    FlatSplit(d, Flat(i, x, width), height * width);
    FlatSplit(h, w, width);
    FlatSplit(i, x, width);
  }

  /** Every place of the slot belongs to a cell. */
  lemma PlaceHasCell(k: nat, width: nat, height: nat, channels: nat) returns (c: nat, h: nat, w: nat)
    requires k < SlotSize(width, height, channels)
    ensures c < channels && h < height && w < width && CellIndex(c, h, w, height, width) == k
  {
    c, h, w := PlaceCell(k, height * width, width, height, channels);
  }

  lemma PlaceCell(k: nat, plane: nat, width: nat, height: nat, channels: nat) returns (c: nat, h: nat, w: nat)
    requires plane == height * width && k < channels * plane
    ensures c < channels && h < height && w < width && Flat(c, Flat(h, w, width), plane) == k
  {
    hide Flat;
    FlatJoin(k, channels, plane);
    var pixel := k % plane;
    assert pixel < plane;
    FlatJoin(pixel, height, width);
    c, h, w := k / plane, pixel / width, pixel % width;
  }

  /** Nothing is lost: the slot gives back the image. */
  lemma PlanesInvert<T>(image: Image<T>)
    requires IsImage(image)
    ensures Interleaved(Planes(image), image.height * image.width, image.channels) == image.data
  {
    hide Planes, Interleaved, Flat;
    var plane, channels := image.height * image.width, image.channels;
    forall j | 0 <= j < |image.data|
      ensures Interleaved(Planes(image), plane, channels)[j] == image.data[j]
    {
      FlatJoin(j, plane, channels);
      InterleavedCell(Planes(image), plane, channels, j);
      PlaneCell(image, j % channels, j / channels);
    }
  }

  lemma InterleavedCell<T>(slot: seq<T>, plane: nat, channels: nat, j: nat)
    requires |slot| == channels * plane && j < plane * channels
    ensures channels > 0 && j / channels < plane && Flat(j % channels, j / channels, plane) < |slot|
    ensures Interleaved(slot, plane, channels)[j] == slot[Flat(j % channels, j / channels, plane)]
  {
    hide Flat;
    FlatJoin(j, plane, channels);
    FlatBound(j % channels, j / channels, channels, plane);
  }

  lemma PlaneCell<T>(image: Image<T>, c: nat, pixel: nat)
    requires IsImage(image) && c < image.channels && pixel < image.height * image.width
    ensures Flat(c, pixel, image.height * image.width) < |Planes(image)|
    ensures Flat(pixel, c, image.channels) < |image.data|
    ensures Planes(image)[Flat(c, pixel, image.height * image.width)] == image.data[Flat(pixel, c, image.channels)]
  {
    hide Flat;
    var plane := image.height * image.width;
    FlatBound(c, pixel, image.channels, plane);
    FlatBound(pixel, c, plane, image.channels);
    FlatSplit(c, pixel, plane);
  }

  /** A size cut to an `int`: the one number of that type that differs from it by a multiple of 2^32. */
  lemma CutToInt(n: nat)
    ensures var r := ToInt32(n % SIZE_LIMIT);
      && -2147483648 <= r < 2147483648 && (n - r) % 4294967296 == 0
      && (r == n <==> n < 2147483648)
  {
    var word := n % SIZE_LIMIT;
    var low := word % 4294967296;
    assert n == 4294967296 * (4294967296 * (n / SIZE_LIMIT) + word / 4294967296) + low;
  }

  /** The offset is the product as an `int`, and it is the true one exactly as long as it fits. */
  lemma OffsetExact(batchIndex: nat, width: nat, height: nat, channels: nat)
    ensures var product := batchIndex * SlotSize(width, height, channels);
      var offset := Offset(batchIndex, width, height, channels);
      && -2147483648 <= offset < 2147483648 && (product - offset) % 4294967296 == 0
      && (offset == product <==> product < 2147483648)
  {
    hide ToInt32;
    CutToInt(batchIndex * SlotSize(width, height, channels));
  }

  /** Slots of different batches do not overlap. */
  lemma SlotsApart(batch: nat, other: nat, width: nat, height: nat, channels: nat)
    requires batch < other
    requires other * SlotSize(width, height, channels) < INT_LIMIT
    ensures Offset(batch, width, height, channels) + SlotSize(width, height, channels)
         <= Offset(other, width, height, channels)
  {
    var slot := SlotSize(width, height, channels);
    assert (batch + 1) * slot <= other * slot;
    assert batch * slot <= other * slot;
    OffsetExact(batch, width, height, channels);
    OffsetExact(other, width, height, channels);
  }

  /** After two images are written to different batches, both can be read back, in either order of writing. */
  lemma BatchesCoexist<T>(blob: seq<T>, first: Image<T>, batch: nat, second: Image<T>, other: nat)
    requires IsImage(first) && IsImage(second) && batch != other
    requires second.width == first.width && second.height == first.height && second.channels == first.channels
    requires var slot := SlotSize(first.width, first.height, first.channels);
      && batch * slot < INT_LIMIT && other * slot < INT_LIMIT
      && batch * slot + slot <= |blob| && other * slot + slot <= |blob|
    ensures var slot := SlotSize(first.width, first.height, first.channels);
      var o1 := Offset(batch, first.width, first.height, first.channels);
      var o2 := Offset(other, first.width, first.height, first.channels);
      && 0 <= o1 && 0 <= o2 && o1 + slot <= |blob| && o2 + slot <= |blob|
      && var after := Written(Written(blob, o1, Planes(first)), o2, Planes(second));
         && Interleaved(after[o1..o1 + slot], first.height * first.width, first.channels) == first.data
         && Interleaved(after[o2..o2 + slot], first.height * first.width, first.channels) == second.data
  {
    hide Planes, Interleaved, Offset, SlotSize, IsImage, Written;
    OffsetsApart(batch, other, first.width, first.height, first.channels);
    PlanesInvert(first);
    PlanesInvert(second);
    WrittenTwice(blob, Offset(batch, first.width, first.height, first.channels), Planes(first),
                 Offset(other, first.width, first.height, first.channels), Planes(second));
  }

  lemma OffsetsApart(batch: nat, other: nat, width: nat, height: nat, channels: nat)
    requires batch != other
    requires batch * SlotSize(width, height, channels) < INT_LIMIT
    requires other * SlotSize(width, height, channels) < INT_LIMIT
    ensures var slot := SlotSize(width, height, channels);
      var o1, o2 := Offset(batch, width, height, channels), Offset(other, width, height, channels);
      && o1 == batch * slot && o2 == other * slot && 0 <= o1 && 0 <= o2
      && (o1 + slot <= o2 || o2 + slot <= o1)
  {
    hide SlotSize, Offset;
    OffsetExact(batch, width, height, channels);
    OffsetExact(other, width, height, channels);
    if batch < other {
      SlotsApart(batch, other, width, height, channels);
    } else {
      SlotsApart(other, batch, width, height, channels);
    }
  }

  lemma WrittenTwice<T>(blob: seq<T>, o1: nat, first: seq<T>, o2: nat, second: seq<T>)
    requires o1 + |first| <= |blob| && o2 + |second| <= |blob|
    requires o1 + |first| <= o2 || o2 + |second| <= o1
    ensures |Written(blob, o1, first)| == |blob| && |Written(Written(blob, o1, first), o2, second)| == |blob|
    ensures var after := Written(Written(blob, o1, first), o2, second);
      after[o1..o1 + |first|] == first && after[o2..o2 + |second|] == second
  {
    var once := Written(blob, o1, first);
    var after := Written(once, o2, second);
    assert forall k :: o2 <= k < o2 + |second| ==> after[k] == second[k - o2];
    assert forall k :: o1 <= k < o1 + |first| ==> once[k] == first[k - o1];
    assert forall k :: o1 <= k < o1 + |first| ==> after[k] == once[k];
  }

  // ---------------------------------------------------------------------------------------------
  // The copy
  // ---------------------------------------------------------------------------------------------

  datatype Outcome = Copied | ChannelMismatch | UnsupportedChannels

  /** The image that is copied: resized unless its size is that of the tensor, each side cut to an `int`. */
  function Resized<T>(image: Image<T>, width: nat, height: nat, resize: (Image<T>, nat, nat) -> Image<T>): Image<T> {
    if ToInt32(width) != image.width || ToInt32(height) != image.height then resize(image, width, height) else image
  }

  predicate Fits<T>(image: Image<T>, width: nat, height: nat, channels: nat) {
    IsImage(image) && image.width == width && image.height == height && image.channels == channels
  }

  /** The first places of the slot are written, and nothing else has changed. */
  ghost predicate Partly<T>(after: seq<T>, before: seq<T>, offset: nat, planes: seq<T>, done: nat) {
    && |after| == |before| && offset + |planes| <= |before| && done <= |planes|
    && (forall i :: 0 <= i < |before| ==>
          after[i] == if offset <= i < offset + done then planes[i - offset] else before[i])
  }

  lemma PartlyNone<T>(before: seq<T>, offset: nat, planes: seq<T>)
    requires offset + |planes| <= |before|
    ensures Partly(before, before, offset, planes, 0)
  {
  }

  /** Writing the next place. */
  lemma PartlyNext<T>(after: seq<T>, before: seq<T>, offset: nat, planes: seq<T>, done: nat)
    requires Partly(after, before, offset, planes, done) && done < |planes|
    ensures offset + done < |after|
    ensures Partly(after[offset + done := planes[done]], before, offset, planes, done + 1)
  {
  }

  lemma SourceIndex(c: nat, width: nat, height: nat)
    ensures c * width * height == c * (height * width)
  {
  }

  lemma NextRow(row: nat, columns: nat)
    ensures row * columns + columns == (row + 1) * columns
  {
  }

  lemma PartlyAll<T>(after: seq<T>, before: seq<T>, offset: nat, planes: seq<T>)
    requires Partly(after, before, offset, planes, |planes|)
    ensures after == Written(before, offset, planes)
  {
  }

  /** The loop of one channel: row by row, pixel by pixel. */
  method CopyGray<T>(image: Image<T>, blob: array<T>, offset: nat)
    requires IsImage(image) && image.channels == 1
    requires offset + SlotSize(image.width, image.height, 1) <= blob.Length
    modifies blob
    ensures blob[..] == Written(old(blob[..]), offset, Planes(image))
  {
    hide Planes, Partly;
    var width, height := image.width, image.height;
    PartlyNone(blob[..], offset, Planes(image));
    for h := 0 to height
      invariant Partly(blob[..], old(blob[..]), offset, Planes(image), h * width)
    {
      for w := 0 to width
        invariant Partly(blob[..], old(blob[..]), offset, Planes(image), h * width + w)
      {
        CellHoldsPixel(image, 0, h, w);
        PartlyNext(blob[..], old(blob[..]), offset, Planes(image), h * width + w);
        blob[offset + h * width + w] := At(image, h, w, 0);
      }
      NextRow(h, width);
    }
    PartlyAll(blob[..], old(blob[..]), offset, Planes(image));
  }

  /** The loops of three channels: plane by plane, row by row, pixel by pixel. */
  method CopyColour<T>(image: Image<T>, blob: array<T>, offset: nat)
    requires IsImage(image) && image.channels == 3
    requires offset + SlotSize(image.width, image.height, 3) <= blob.Length
    modifies blob
    ensures blob[..] == Written(old(blob[..]), offset, Planes(image))
  {
    hide Planes, Partly;
    var width, height := image.width, image.height;
    ghost var plane := height * width;
    PartlyNone(blob[..], offset, Planes(image));
    for c := 0 to 3
      invariant Partly(blob[..], old(blob[..]), offset, Planes(image), c * plane)
    {
      for h := 0 to height
        invariant Partly(blob[..], old(blob[..]), offset, Planes(image), c * plane + h * width)
      {
        for w := 0 to width
          invariant Partly(blob[..], old(blob[..]), offset, Planes(image), c * plane + h * width + w)
        {
          CellHoldsPixel(image, c, h, w);
          SourceIndex(c, width, height);
          PartlyNext(blob[..], old(blob[..]), offset, Planes(image), c * plane + h * width + w);
          blob[offset + c * width * height + h * width + w] := At(image, h, w, c);
        }
        NextRow(h, width);
      }
      NextRow(c, plane);
    }
    PartlyAll(blob[..], old(blob[..]), offset, Planes(image));
  }

  /**
   * `resize` stands for the call of the image library. The caller provides a tensor with room for
   * the slot at the offset as it is computed.
   */
  method MatU8ToBlob<T>(image: Image<T>, resize: (Image<T>, nat, nat) -> Image<T>, blob: array<T>,
                        width: nat, height: nat, channels: nat, batchIndex: nat)
    returns (outcome: Outcome)
    requires Fits(Resized(image, width, height, resize), width, height, image.channels)
    requires image.channels == channels && (channels == 1 || channels == 3) ==>
      && 0 <= Offset(batchIndex, width, height, channels)
      && Offset(batchIndex, width, height, channels) + SlotSize(width, height, channels) <= blob.Length
    modifies blob
    ensures outcome == if image.channels != channels then ChannelMismatch
                       else if channels == 1 || channels == 3 then Copied
                       else UnsupportedChannels
    ensures outcome != Copied ==> blob[..] == old(blob[..])
    ensures outcome == Copied ==>
      var planes := Planes(Resized(image, width, height, resize));
      blob[..] == Written(old(blob[..]), Offset(batchIndex, width, height, channels), planes)
  {
    if image.channels != channels {
      return ChannelMismatch;
    }
    var resized := image;
    if ToInt32(width) != image.width || ToInt32(height) != image.height {
      resized := resize(image, width, height);
    }
    var offset := Offset(batchIndex, width, height, channels);
    if channels == 1 {
      CopyGray(resized, blob, offset);
    } else if channels == 3 {
      CopyColour(resized, blob, offset);
    } else {
      return UnsupportedChannels;
    }
    outcome := Copied;
  }
}
