/** The record key `parseCsv` makes of each exported header name. */
module CsvHeaderKeys {
  import opened Text
  import opened CsvExport

  /** A name with no white space at its ends that agrees letter by letter
      with `key` once lower-cased trims and lower-cases to `key`. */
  lemma NameKey(name: string, key: string)
    requires |name| >= 1 && !IsSpace(name[0]) && !IsSpace(name[|name| - 1])
    requires |name| == |key| && forall i :: 0 <= i < |name| ==> LowerChar(name[i]) == key[i]
    ensures ToLower(Trim(name)) == key
  {
    TrimNoSpace(name);
    LowerOf(name, key);
  }

  /** The header in column `j`, trimmed and lower-cased, is key `j`. */
  lemma HeaderKeyAt(name: string, j: nat)
    requires j < |Headers| && name == Headers[j]
    ensures ToLower(Trim(name)) == HeaderKeys[j]
  {
    NameKey(name, HeaderKeys[j]);
  }

  /** Every header, trimmed and lower-cased, is the key in its column. */
  lemma HeaderKeysOfHeaders()
    ensures forall j :: 0 <= j < |Headers| ==> ToLower(Trim(Headers[j])) == HeaderKeys[j]
  {
    forall j | 0 <= j < |Headers| ensures ToLower(Trim(Headers[j])) == HeaderKeys[j] {
      HeaderKeyAt(Headers[j], j);
    }
  }
}
