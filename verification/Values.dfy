/** Values that scripts compute with, and the conversions between their representations. */
module Values {

  datatype Option<T> = None | Some(value: T)

  predicate NulFree(s: string) {
    '\0' !in s
  }

  /** A NUL-terminated string of the VM, without its terminator. */
  type CString = s: string | NulFree(s)

  /** A double, carried as its bit pattern; what arithmetic does to it is a parameter (`Arith`). */
  datatype F64 = F64(bits: nat)

  /** The contents of a script variable (a console value of one of the three internal types). */
  datatype Value =
    | VUnsigned(u: int)
    | VNumber(f: F64)
    | VString(s: CString)

  datatype FloatOp = Add | Sub | Mul | Div | Mod
  datatype CompareOp = Less | Greater | GreaterEq | LessEq | Equal | NotEqual
  datatype BitOp = Xor | BitAnd | BitOr | ShiftRight | ShiftLeft

  /**
    The host's arithmetic and text conversions. Every theorem of this project holds for all of them,
    so for IEEE doubles and the C library in particular.
   */
  datatype Arith = Arith(
    floatOp: (FloatOp, F64, F64) -> F64,
    negate: F64 -> F64,
    compare: (CompareOp, F64, F64) -> bool,
    nonZero: F64 -> bool,
    bitOp: (BitOp, int, int) -> int,
    complement: int -> int,
    floatOfInt: int -> F64,    // (F64) of an S64
    truncate: F64 -> int,      // (S64) of an F64
    wordOfFloat: F64 -> int,   // (U32) of an F64
    roundTo32: F64 -> F64,     // (F32) of an F64
    parseInt: CString -> int,  // atoi and strtoll
    parseFloat: CString -> F64,
    constantValue: CString -> F64,  // consoleStringToNumber
    showInt: int -> CString,
    showFloat: F64 -> CString,
    intern: CString -> CString,     // the string table's canonical spelling
    equalIgnoringCase: (CString, CString) -> bool)

  const TWO_32: int := 0x1_0000_0000
  const TWO_31: int := 0x8000_0000

  /** The U32 with the same low bits. */
  function ToU32(i: int): (u: int)
    ensures 0 <= u < TWO_32
  {
    i % TWO_32
  }

  /** The S32 with the same low bits. */
  function ToS32(i: int): (n: int)
    ensures -TWO_31 <= n < TWO_31
    ensures ToU32(n) == ToU32(i)
  {
    var u := ToU32(i);
    if u < TWO_31 then u else u - TWO_32
  }

  function ValueAsInt(ar: Arith, v: Value): int {
    match v
    case VUnsigned(u) => u
    case VNumber(f) => ar.truncate(f)
    case VString(s) => ar.parseInt(s)
  }

  function ValueAsFloat(ar: Arith, v: Value): F64 {
    match v
    case VUnsigned(u) => ar.floatOfInt(u)
    case VNumber(f) => f
    case VString(s) => ar.parseFloat(s)
  }

  function ValueAsString(ar: Arith, v: Value): CString {
    match v
    case VUnsigned(u) => ar.showInt(u)
    case VNumber(f) => ar.showFloat(f)
    case VString(s) => s
  }
}
