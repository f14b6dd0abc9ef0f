/** The values of a table as they travel to an export, and the joining of text. */
module Cells {
  /** `Shown` is a number or a boolean as `String` prints it; `Binary` is base64; `Truncated` text was cut for display. */
  datatype Cell = Null | Text(text: string) | Binary(bin: string) | Shown(text: string) | Truncated(cut: string)

  function Join(parts: seq<string>, sep: string): string {
    if parts == [] then "" else if |parts| == 1 then parts[0] else parts[0] + sep + Join(parts[1..], sep)
  }
}
