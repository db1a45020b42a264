/** Constants and descriptor shapes of the simulated heap: the two descriptor
    structs of malloc_free.h and the alignment rule of malloc_free.c.
    Pointers into the arena are modelled as byte offsets from its start. */
module HeapLayout {

  datatype Option<T> = None | Some(value: T)

  /** Capacity of the one arena, in bytes. */
  const SIZE_OF_HEAP: nat := 4096
  /** Marker written into every allocated block's header. */
  const MAGIC_NUMBER: int := 123456789
  const ALIGN_TO: nat := 8
  /** sizeof(header_t) on an LP64 target: a size_t and an int, padded to 16. */
  const HEADER_SIZE: nat := 16
  /** sizeof(node_t) on an LP64 target: a size_t and a pointer. */
  const NODE_SIZE: nat := 16
  /** size_t arithmetic is modulo 2^64. */
  const SIZE_T_MODULUS: nat := 0x1_0000_0000_0000_0000

  /** What the arena holds at the start of a block: a free-list node
      (node_t) or an allocated block's header (header_t). A FreeNode's `next`
      is the offset of the next node, None standing for NULL. */
  datatype Desc =
    | FreeNode(size: nat, next: Option<nat>)
    | Header(size: nat, magic: int)

  /** align: the footprint a request of `raw` payload bytes occupies once its
      header is added, rounded up to ALIGN_TO. The expression is the source's,
      `raw - 1` included, evaluated in size_t: the sum is reduced modulo
      2^64 (for raw == 0 the subtraction wraps and the addition wraps
      back). The result is the least multiple of 8 that is at least
      raw + HEADER_SIZE whenever the sum does not wrap. */
  function Align(raw: nat): (r: nat)
    requires raw < SIZE_T_MODULUS
    ensures r % ALIGN_TO == 0
    ensures raw + ALIGN_TO + HEADER_SIZE - 1 < SIZE_T_MODULUS ==>
              raw + HEADER_SIZE <= r < raw + HEADER_SIZE + ALIGN_TO
  {
    var sum := raw + ALIGN_TO + HEADER_SIZE - 1;
    ALIGN_TO * ((if sum < SIZE_T_MODULUS then sum else sum - SIZE_T_MODULUS) / ALIGN_TO)
  }
}
