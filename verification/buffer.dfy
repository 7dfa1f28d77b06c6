/** The byte buffer every distance function reads: the in-memory content of a
    file, as a read-only sequence of bytes whose length is a `size_t`. */
module Buffers {
  import opened SizeT

  /** An `unsigned char`. The source compares bytes only for equality and uses
      them as histogram indices after a cast to `unsigned char`, so the
      signedness of plain `char` plays no part. */
  type byte = b: int | 0 <= b < 256

  /** `struct buffer`: `pointer` and `size` together are the sequence; its
      length is a `size_t`. */
  type Buffer = s: seq<byte> | |s| <= SIZE_MAX witness []
}
