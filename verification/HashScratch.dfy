/** The per-hasher buffers (internal/astrobwt/scratch.go). */
module HashScratch {
  import opened Suffixes
  import opened V114Emit
  import WolfLoop

  const MAX_LENGTH: nat := WolfLoop.MAX_LENGTH

  type uint16 = x: int | 0 <= x < 0x10000

  /** The buffers of a hash: the stream with its template markers, the suffix array, and the state of the
      descriptor suffix array. */
  class ScratchData {
    const data: array<byte>
    const sa: array<int>
    const markers: array<uint16>
    const flags: array<byte>
    var nTemplates: nat
    var v114: V114Scratch?

    constructor ()
      ensures Valid() && fresh(this) && fresh(data) && fresh(sa) && fresh(markers) && fresh(flags)
      ensures v114 == null
    {
      data := new byte[MAX_LENGTH + 64](i => 0);
      sa := new int[MAX_LENGTH](i => 0);
      markers := new uint16[280](i => 0);
      flags := new byte[280](i => 0);
      nTemplates, v114 := 0, null;
    }

    predicate Valid()
      reads this
    {
      && data.Length == MAX_LENGTH + 64 && sa.Length == MAX_LENGTH
      && markers.Length == 280 && flags.Length == 280 && data != flags
    }
  }
}
