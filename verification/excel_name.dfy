/**
 * The name of the exported spreadsheet. The upload handler takes the form
 * field `excel_name`, falls back to a default when it is missing or empty,
 * and appends `.xlsx` unless the name already ends with it in any letter
 * case. The export handler only applies the fallback.
 */
module ExcelName {

  import opened Wrappers

  const DefaultExcelName: string := "lecturas_exportadas.xlsx"

  const Extension: string := ".xlsx"

  /** `str.lower()` on one character; only ASCII letters are modelled. */
  function LowerChar(c: char): char
  {
    if 'A' <= c <= 'Z' then (c as int - 'A' as int + 'a' as int) as char else c
  }

  function Lower(s: string): (t: string)
    ensures |t| == |s|
    ensures forall i | 0 <= i < |s| :: t[i] == LowerChar(s[i])
  {
    seq(|s|, i requires 0 <= i < |s| => LowerChar(s[i]))
  }

  predicate EndsWith(s: string, suffix: string)
  {
    |suffix| <= |s| && s[|s| - |suffix|..] == suffix
  }

  /** The lower-cased name ends with the spreadsheet extension. */
  predicate HasXlsxExtension(name: string)
  {
    EndsWith(Lower(name), Extension)
  }

  /** The form value, or the default name when the field is missing or empty (both are falsy). */
  function OrDefault(field: Option<string>): (name: string)
    ensures name != ""
    ensures field.Some? && field.value != "" ==> name == field.value
    ensures field == None || field == Some("") ==> name == DefaultExcelName
  {
    if field.Some? && field.value != "" then field.value else DefaultExcelName
  }

  /** Appending the extension makes any name end with it. */
  lemma AppendedExtension(s: string)
    ensures HasXlsxExtension(s + Extension)
  {
  }

  /**
   * The name the upload handler passes on. It always ends with `.xlsx`
   * (ignoring case); it is the default for a missing or empty field; a
   * given name is kept as it is exactly when it already ends with the
   * extension, and otherwise gains the extension.
   */
  function NormaliseExcelName(field: Option<string>): (name: string)
    ensures HasXlsxExtension(name)
    ensures field == None || field == Some("") ==> name == DefaultExcelName
    ensures field.Some? && field.value != "" ==>
      && (name == field.value <==> HasXlsxExtension(field.value))
      && (name == field.value || name == field.value + Extension)
  {
    var name := OrDefault(field);
    assert HasXlsxExtension(DefaultExcelName) by {
      assert DefaultExcelName == "lecturas_exportadas" + Extension;
      AppendedExtension("lecturas_exportadas");
    }
    if HasXlsxExtension(name) then name
    else
      AppendedExtension(name);
      name + Extension
  }

  /** Normalising a normalised name changes nothing. */
  lemma NormaliseIdempotent(field: Option<string>)
    ensures NormaliseExcelName(Some(NormaliseExcelName(field))) == NormaliseExcelName(field)
  {
  }

  /**
   * The export handler's fallback keeps a name the upload handler produced,
   * so a normalised name sent back through the export form is used as is.
   */
  lemma ExportKeepsNormalisedName(field: Option<string>)
    ensures OrDefault(Some(NormaliseExcelName(field))) == NormaliseExcelName(field)
    ensures HasXlsxExtension(OrDefault(Some(NormaliseExcelName(field))))
  {
  }
}
