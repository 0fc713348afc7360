/** The machine types the library computes with. */
module Machine {
  newtype uint32 = x: int | 0 <= x < 0x1_0000_0000
  newtype byte = x: int | 0 <= x < 256

  /** A cast to a 16-bit unsigned short. */
  function Ush(x: nat): (r: nat)
    ensures x < 65536 ==> r == x
  {
    x % 65536
  }

  datatype Option<+T> = None | Some(value: T)
}
