/** The values of a decoded and of a retained result. */
module Cells {
  import opened Wrappers
  import opened Decimals
  import Json

  /**
   A float with the two texts the libraries give it: `display` for a plain number, and `json` for a JSON
   number, absent where there is none and `null` is written.
   */
  datatype FloatText = FloatText(display: string, json: Option<string>)

  datatype Cell =
    | Null
    | Bool(value: bool)
    | Int(number: int)
    | UInt(count: nat)
    | Float(float: FloatText)
    | Decimal(text: string)
    | Text(text: string)
    | TextPreview(preview: string, originalLen: nat)
    | Bytes(retained: seq<Json.Byte>, originalLen: nat)
    | JsonCell(document: Json.Document)
    | JsonPreview(preview: string, originalLen: nat)
    | DateTime(text: string)

  datatype Column = Column(name: string, typeName: string)

  /** `scalar_retained_bytes`: what a cell counts for against a byte limit. */
  function CellBytes(cell: Cell): nat {
    match cell
    case Null => 4
    case Bool(_) => 5
    case Int(number) => |SignedText(number)|
    case UInt(count) => |DecimalText(count)|
    case Float(float) => Json.ByteLen(float.display)
    case Decimal(text) => Json.ByteLen(text)
    case Text(text) => Json.ByteLen(text)
    case DateTime(text) => Json.ByteLen(text)
    case TextPreview(preview, _) => Json.ByteLen(preview)
    case JsonPreview(preview, _) => Json.ByteLen(preview)
    case Bytes(retained, _) => |retained|
    case JsonCell(document) => Json.ByteLen(Json.Compact(document))
  }
}
