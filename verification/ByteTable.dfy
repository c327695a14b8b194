/** A 256-entry lookup table laid out as sixteen rows of sixteen. */
module ByteTable {
  import opened Bytes

  datatype Row<T> = Row(t0: T, t1: T, t2: T, t3: T, t4: T, t5: T, t6: T, t7: T,
                        t8: T, t9: T, tA: T, tB: T, tC: T, tD: T, tE: T, tF: T)
  {
    function At(j: byte): T {
      match j
      case 0x0 => t0 case 0x1 => t1 case 0x2 => t2 case 0x3 => t3
      case 0x4 => t4 case 0x5 => t5 case 0x6 => t6 case 0x7 => t7
      case 0x8 => t8 case 0x9 => t9 case 0xA => tA case 0xB => tB
      case 0xC => tC case 0xD => tD case 0xE => tE case _ => tF
    }

    /** The row holds f(base), f(base | 1), ..., f(base | 15). */
    ghost predicate Is(f: byte -> T, base: byte) {
      && t0 == f(base) && t1 == f(base | 1) && t2 == f(base | 2) && t3 == f(base | 3)
      && t4 == f(base | 4) && t5 == f(base | 5) && t6 == f(base | 6) && t7 == f(base | 7)
      && t8 == f(base | 8) && t9 == f(base | 9) && tA == f(base | 10) && tB == f(base | 11)
      && tC == f(base | 12) && tD == f(base | 13) && tE == f(base | 14) && tF == f(base | 15)
    }

    lemma AtIs(f: byte -> T, i: byte)
      requires Is(f, i & 0xF0)
      ensures At(i & 0x0F) == f(i)
    {
    }
  }
}
