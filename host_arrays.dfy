/**
 * The host bridge's array transfers (main.dart.mjs): the bulk copy loops
 * between a JavaScript array and a wasm array, and the copy of a byte range
 * of a buffer into a fresh `DataView`.
 */
module HostArrays {
  import opened Wrappers

  /** `b` with the elements of `s` written from position `st` on. */
  function Overwrite<T>(b: seq<T>, s: seq<T>, st: int): seq<T>
    requires s == [] || (0 <= st && st + |s| <= |b|)
  {
    if s == [] then b else b[..st] + s + b[st + |s|..]
  }

  /** `Overwrite` changes exactly the `|s|` slots from `st` on, to `s`. */
  lemma OverwriteSpec<T>(b: seq<T>, s: seq<T>, st: int)
    requires s == [] || (0 <= st && st + |s| <= |b|)
    ensures |Overwrite(b, s, st)| == |b|
    ensures forall i :: 0 <= i < |s| ==> Overwrite(b, s, st)[st + i] == s[i]
    ensures forall j :: 0 <= j < |b| && !(st <= j < st + |s|) ==> Overwrite(b, s, st)[j] == b[j]
    ensures s != [] ==> Overwrite(b, s, st)[st..st + |s|] == s
  {
  }

  lemma SliceSplit<T>(q: seq<T>, i: int, j: int, k: int)
    requires 0 <= i <= j <= k <= |q|
    ensures q[i..k] == q[i..j] + q[j..k]
  {
  }

  /** The range `[offset, offset + length)` lies inside an array of `size`
      elements. */
  predicate InRange(offset: int, length: int, size: int) {
    0 <= offset && 0 <= length && offset + length <= size
  }

  /** The copy loops `_1513`, `_1517`, `_1519` and `_1521` (wasm `i8`, `i32`,
      `f32` and `f64` arrays): `length` elements of the wasm array from
      `wasmOffset` on are stored into the JavaScript array from `jsOffset`
      on, in increasing order. A non-positive `length` copies nothing; a
      wasm read outside the array traps, and the JavaScript array is taken
      to have room for the range. */
  method CopyToJs<T>(jsArray: array<T>, jsOffset: int, wasmArray: array<T>, wasmOffset: int, length: int)
    requires jsArray != wasmArray
    requires length <= 0 || (InRange(jsOffset, length, jsArray.Length) && InRange(wasmOffset, length, wasmArray.Length))
    modifies jsArray
    ensures length <= 0 ==> jsArray[..] == old(jsArray[..])
    ensures length > 0 ==> jsArray[..] == Overwrite(old(jsArray[..]), wasmArray[wasmOffset..wasmOffset + length], jsOffset)
  {
    var i := 0;
    while i < length
      invariant 0 <= i && (length <= 0 || i <= length)
      invariant length <= 0 ==> jsArray[..] == old(jsArray[..])
      invariant length > 0 ==> jsArray[..] == Overwrite(old(jsArray[..]), wasmArray[wasmOffset..wasmOffset + i], jsOffset)
      decreases length - i
    {
      jsArray[jsOffset + i] := wasmArray[wasmOffset + i];
      assert wasmArray[wasmOffset..wasmOffset + i + 1] == wasmArray[wasmOffset..wasmOffset + i] + [wasmArray[wasmOffset + i]];
      i := i + 1;
    }
  }

  /** The copy loops `_1514`, `_1518`, `_1520` and `_1522`: the same transfer
      in the other direction, from the JavaScript array into the wasm array. */
  method CopyFromJs<T>(jsArray: array<T>, jsOffset: int, wasmArray: array<T>, wasmOffset: int, length: int)
    requires jsArray != wasmArray
    requires length <= 0 || (InRange(jsOffset, length, jsArray.Length) && InRange(wasmOffset, length, wasmArray.Length))
    modifies wasmArray
    ensures length <= 0 ==> wasmArray[..] == old(wasmArray[..])
    ensures length > 0 ==> wasmArray[..] == Overwrite(old(wasmArray[..]), jsArray[jsOffset..jsOffset + length], wasmOffset)
  {
    var i := 0;
    while i < length
      invariant 0 <= i && (length <= 0 || i <= length)
      invariant length <= 0 ==> wasmArray[..] == old(wasmArray[..])
      invariant length > 0 ==> wasmArray[..] == Overwrite(old(wasmArray[..]), jsArray[jsOffset..jsOffset + i], wasmOffset)
      decreases length - i
    {
      wasmArray[wasmOffset + i] := jsArray[jsOffset + i];
      assert jsArray[jsOffset..jsOffset + i + 1] == jsArray[jsOffset..jsOffset + i] + [jsArray[jsOffset + i]];
      i := i + 1;
    }
  }

  /** Copying `length` elements out and back in restores them in the wasm
      array's range and leaves the rest of the wasm array as it was. */
  method CopyRoundTrip<T>(jsArray: array<T>, jsOffset: int, wasmArray: array<T>, wasmOffset: int, length: int)
    requires jsArray != wasmArray
    requires length > 0 && InRange(jsOffset, length, jsArray.Length) && InRange(wasmOffset, length, wasmArray.Length)
    modifies jsArray, wasmArray
    ensures wasmArray[..] == old(wasmArray[..])
    ensures jsArray[jsOffset..jsOffset + length] == wasmArray[wasmOffset..wasmOffset + length]
  {
    ghost var w := wasmArray[..];
    CopyToJs(jsArray, jsOffset, wasmArray, wasmOffset, length);
    OverwriteSpec(old(jsArray[..]), w[wasmOffset..wasmOffset + length], jsOffset);
    assert jsArray[jsOffset..jsOffset + length] == w[wasmOffset..wasmOffset + length];
    CopyFromJs(jsArray, jsOffset, wasmArray, wasmOffset, length);
    OverwriteSpec(w, w[wasmOffset..wasmOffset + length], wasmOffset);
    assert wasmArray[..] == w;
  }

  type Byte = x: int | 0 <= x < 0x100

  /** A `DataView` over a whole buffer. */
  datatype DataView = DataView(buffer: array<Byte>)

  /** Thrown by the `ArrayBuffer` and `Uint8Array` constructors. */
  datatype RangeError = RangeError

  /** `_1374(o, offsetInBytes, lengthInBytes)`: a fresh buffer of
      `lengthInBytes` bytes holding the bytes of `o` at
      `[offsetInBytes, offsetInBytes + lengthInBytes)`, wrapped in a
      `DataView`. A negative length, a negative offset or a range past the
      end of `o` throws a `RangeError`; `o` is left as it was. */
  method CopyBufferSlice(o: array<Byte>, offsetInBytes: int, lengthInBytes: int)
    returns (r: Result<DataView, RangeError>)
    ensures r.Failure? <==> !InRange(offsetInBytes, lengthInBytes, o.Length)
    ensures r.Success? ==> fresh(r.value.buffer)
    ensures r.Success? ==> r.value.buffer[..] == o[offsetInBytes..offsetInBytes + lengthInBytes]
  {
    if lengthInBytes < 0 {
      return Failure(RangeError);
    }
    if offsetInBytes < 0 || offsetInBytes + lengthInBytes > o.Length {
      return Failure(RangeError);
    }
    var dst := new Byte[lengthInBytes](i requires 0 <= i < lengthInBytes reads o => o[offsetInBytes + i]);
    return Success(DataView(dst));
  }
}
