/**
 * The byte-buffer types of include/ws-gw.h: `Buffer`, an owning wrapper
 * around one of three storage implementations (or none), and `BufferView`,
 * a view of a byte range. Raw pointers are modelled by the bytes they give
 * access to; a view is modelled as a copy of the bytes it shows.
 */
module Buffers {
  import opened Wrappers

  /** `uint8_t`. */
  newtype uint8 = x: int | 0 <= x < 256

  /** A C++ `char`, identified by its 8-bit pattern (0 to 255). */
  type char8 = c: char | c as int < 256

  /** `std::string` and `std::string_view`: a sequence of chars. */
  type CppString = seq<char8>

  /** The reinterpreting cast between `char const *` and `uint8_t const *`, one char at a time. */
  function ByteOfChar(c: char8): uint8 { c as int as uint8 }

  function CharOfByte(b: uint8): char8 { b as int as char }

  /** The bytes a `(uint8_t const *) s.data()` pointer gives access to. */
  function BytesOfString(s: CppString): (r: seq<uint8>)
    ensures |r| == |s|
  {
    seq(|s|, i requires 0 <= i < |s| => ByteOfChar(s[i]))
  }

  /** The chars a `(char const *) data` pointer gives access to. */
  function StringOfBytes(b: seq<uint8>): (r: CppString)
    ensures |r| == |b|
  {
    seq(|b|, i requires 0 <= i < |b| => CharOfByte(b[i]))
  }

  /** Reading chars as bytes and back gives the same chars. */
  lemma CharsRoundTrip(s: CppString)
    ensures StringOfBytes(BytesOfString(s)) == s
  {
    assert forall i | 0 <= i < |s| :: StringOfBytes(BytesOfString(s))[i] == s[i];
  }

  /** Reading bytes as chars and back gives the same bytes. */
  lemma BytesRoundTrip(b: seq<uint8>)
    ensures BytesOfString(StringOfBytes(b)) == b
  {
    assert forall i | 0 <= i < |b| :: BytesOfString(StringOfBytes(b))[i] == b[i];
  }

  /** What a `data()` accessor returns: null, or a pointer to the first of some readable bytes. */
  datatype Pointer = Null | Into(readable: seq<uint8>)

  /** The storage behind a non-null `Buffer`: `BufferImplString`, `BufferImplUString` or `BufferImplBuilder`. */
  datatype BufferImpl =
    | StringImpl(chars: CppString)
    | UStringImpl(bytes: seq<uint8>)
    | BuilderImpl(finished: seq<uint8>)  // the builder's finished buffer

  /** `BufferImpl::data()`: each implementation points at its own storage. */
  function ImplData(impl: BufferImpl): seq<uint8>
  {
    match impl
    case StringImpl(chars) => BytesOfString(chars)
    case UStringImpl(bytes) => bytes
    case BuilderImpl(finished) => finished
  }

  /** `Buffer`: a possibly null `unique_ptr<BufferImpl>`. */
  datatype Buffer = Buffer(impl: Option<BufferImpl>)

  /** `Buffer::data()`: null when there is no implementation. */
  function Data(b: Buffer): Pointer
  {
    if b.impl.None? then Null else Into(ImplData(b.impl.value))
  }

  /** `Buffer::size()`: 0 when there is no implementation. */
  function Size(b: Buffer): nat
  {
    if b.impl.None? then 0 else |ImplData(b.impl.value)|
  }

  /**
   * `operator std::basic_string<uint8_t>` and `operator std::basic_string_view<uint8_t>`:
   * the `size()` bytes at `data()`.
   */
  function Contents(b: Buffer): (r: seq<uint8>)
    ensures |r| == Size(b)
    ensures Data(b).Null? ==> r == []
    ensures Data(b).Into? ==> r == Data(b).readable[..Size(b)]
  {
    if b.impl.None? then [] else ImplData(b.impl.value)
  }

  /** `operator std::string`, `operator std::string_view` and `str()`: the `size()` chars at `data()`. */
  function Str(b: Buffer): (r: CppString)
    ensures |r| == Size(b)
    ensures BytesOfString(r) == Contents(b)
  {
    BytesRoundTrip(Contents(b));
    StringOfBytes(Contents(b))
  }

  /** `Buffer()`: no implementation. */
  function EmptyBuffer(): (b: Buffer)
    ensures Size(b) == 0 && Data(b) == Null
    ensures Contents(b) == [] && Str(b) == []
  {
    Buffer(None)
  }

  /** `Buffer(std::string)`: the buffer holds the string's chars. */
  function BufferOfString(s: CppString): (b: Buffer)
    ensures Size(b) == |s|
    ensures Contents(b) == BytesOfString(s)
    ensures Str(b) == s
  {
    CharsRoundTrip(s);
    Buffer(Some(StringImpl(s)))
  }

  /** `Buffer(char const *data, size_t len)`: the first `len` chars at `data`. */
  function BufferOfChars(data: CppString, len: nat): (b: Buffer)
    requires len <= |data|
    ensures Size(b) == len
    ensures Str(b) == data[..len]
  {
    BufferOfString(data[..len])
  }

  /** `Buffer(std::basic_string<uint8_t>)`: the buffer holds the bytes. */
  function BufferOfUString(u: seq<uint8>): (b: Buffer)
    ensures Size(b) == |u|
    ensures Contents(b) == u
  {
    Buffer(Some(UStringImpl(u)))
  }

  /** `Buffer(uint8_t const *data, size_t len)`: the first `len` bytes at `data`. */
  function BufferOfBytes(data: seq<uint8>, len: nat): (b: Buffer)
    requires len <= |data|
    ensures Size(b) == len
    ensures Contents(b) == data[..len]
  {
    BufferOfUString(data[..len])
  }

  /** `Buffer(FlatBufferBuilder &&)`: the buffer takes over the builder's finished bytes. */
  function BufferOfBuilder(finished: seq<uint8>): (b: Buffer)
    ensures Size(b) == |finished|
    ensures Contents(b) == finished
  {
    Buffer(Some(BuilderImpl(finished)))
  }

  /** `BufferView`: the bytes of its `basic_string_view<uint8_t>`. */
  datatype BufferView = BufferView(storage: seq<uint8>)

  /** `BufferView::size()`. */
  function ViewSize(v: BufferView): nat { |v.storage| }

  /** `operator std::basic_string<uint8_t>` and `operator std::basic_string_view<uint8_t>`. */
  function ViewBytes(v: BufferView): (r: seq<uint8>)
    ensures |r| == ViewSize(v)
  {
    v.storage
  }

  /** `operator std::string` and `operator std::string_view`. */
  function ViewStr(v: BufferView): (r: CppString)
    ensures |r| == ViewSize(v)
    ensures BytesOfString(r) == ViewBytes(v)
  {
    BytesRoundTrip(v.storage);
    StringOfBytes(v.storage)
  }

  /** `BufferView()` and the `{}` argument: an empty view. */
  function EmptyView(): (v: BufferView)
    ensures ViewSize(v) == 0 && ViewBytes(v) == [] && ViewStr(v) == []
  {
    BufferView([])
  }

  /** `BufferView(uint8_t const *data, size_t len)`. */
  function ViewOfBytes(data: seq<uint8>, len: nat): (v: BufferView)
    requires len <= |data|
    ensures ViewSize(v) == len
    ensures ViewBytes(v) == data[..len]
  {
    BufferView(data[..len])
  }

  /** `BufferView(std::string const &)` and `BufferView(std::string_view)`. */
  function ViewOfString(s: CppString): (v: BufferView)
    ensures ViewSize(v) == |s|
    ensures ViewBytes(v) == BytesOfString(s)
    ensures ViewStr(v) == s
  {
    CharsRoundTrip(s);
    BufferView(BytesOfString(s))
  }

  /** `BufferView(std::basic_string<uint8_t> const &)` and `BufferView(std::basic_string_view<uint8_t> const &)`. */
  function ViewOfUString(u: seq<uint8>): (v: BufferView)
    ensures ViewSize(v) == |u|
    ensures ViewBytes(v) == u
  {
    BufferView(u)
  }

  /** `BufferView(FlatBufferBuilder const &)`: the builder's finished bytes. */
  function ViewOfBuilder(finished: seq<uint8>): (v: BufferView)
    ensures ViewSize(v) == |finished|
    ensures ViewBytes(v) == finished
  {
    BufferView(finished)
  }

  /** `BufferView(Buffer const &)`: a view of `data()[0..size())`. */
  function ViewOfBuffer(b: Buffer): (v: BufferView)
    ensures ViewSize(v) == Size(b)
    ensures ViewBytes(v) == Contents(b)
    ensures ViewStr(v) == Str(b)
  {
    BufferView(Contents(b))
  }
}
