/** Attribute values and the rows that hold them. */
module AttrValue {
  import opened Prelude

  type Slot = U16

  /** A typed scalar. A float is held as its IEEE-754 bits. */
  datatype Value =
    | BoolValue(b: bool)
    | U8Value(u8: byte)
    | U32Value(u32: U32)
    | U64Value(u64: U64)
    | F32Value(bits: U32)
    | StrValue(str: Bytes)

  /** The registered types, numbered as the slot table numbers them. */
  datatype SlotType = SlotBool | SlotU8 | SlotU32 | SlotU64 | SlotF32 | SlotString

  function TypeOf(v: Value): SlotType {
    match v
    case BoolValue(_) => SlotBool
    case U8Value(_) => SlotU8
    case U32Value(_) => SlotU32
    case U64Value(_) => SlotU64
    case F32Value(_) => SlotF32
    case StrValue(_) => SlotString
  }

  /** The slots a record carries, and its value in each. */
  type Row = map<Slot, Value>
}
