/** The disk-storage naming rule: a stored file is named after the form field
    that carried it, the millisecond clock reading at write time, and the
    extension of the name the client sent. The clock reading and the extension
    are parameters here. */
module Storage {
  import opened Text

  /** `fieldname-<decimal timestamp><extension>`; the extension keeps its own
      leading dot, so no second dash appears before it. The name starts with the
      field name and a dash, ends with the extension, and what lies between is
      the timestamp's plain decimal spelling, which reads back as the
      timestamp. */
  function StoredName(fieldname: string, timestamp: nat, extension: string): (name: string)
    ensures |name| > |fieldname| + 1 + |extension|
    ensures name[..|fieldname| + 1] == fieldname + "-"
    ensures name[|name| - |extension|..] == extension
    ensures AllDigits(name[|fieldname| + 1..|name| - |extension|])
    ensures DecimalValue(name[|fieldname| + 1..|name| - |extension|]) == timestamp
    ensures name[|fieldname| + 1..|name| - |extension|] == Decimal(timestamp)
  {
    var digits := Decimal(timestamp);
    var name := fieldname + "-" + digits + extension;
    assert name[|fieldname| + 1..|name| - |extension|] == digits;
    name
  }

  /** Two writes for the same field and extension at different clock readings
      never share a name. */
  lemma DistinctTimestampsDistinctNames(fieldname: string, t1: nat, t2: nat, extension: string)
    requires t1 != t2
    ensures StoredName(fieldname, t1, extension) != StoredName(fieldname, t2, extension)
  {
  }
}
