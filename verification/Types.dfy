/** Data types of the file format, and what an operation may fail with. */
module Types {

  datatype TSDataType =
    | Boolean | Int32 | Int64 | Float | Double | Text | Vector | Unknown
    | Timestamp | Date | Blob | String | Null | Invalid

  /** Integer overflow: `Checked` builds stop, `Wrapping` builds wrap around. */
  datatype Build = Checked | Wrapping

  datatype Error = WrongType | EndOfData | InvalidDelta | Overflow
}
