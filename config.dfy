/** `load_data_from_env`: the shape check on the DATA_JSON environment value.
    Reading the environment and `json.loads` are left to the caller: `raw` is
    the value of DATA_JSON (None when unset) and `decoded` what `json.loads(raw)`
    returns (None when it raises JSONDecodeError). */
module Config {
  import opened Wrappers
  import opened Json

  const EMPTY_MESSAGE := "Environment variable 'DATA_JSON' tidak ditemukan atau kosong."
  const SHAPE_MESSAGE := "Isi 'DATA_JSON' tidak valid. Harus berupa list of dictionaries."
  const DECODE_MESSAGE := "DATA_JSON mengandung string yang tidak valid sebagai JSON."
  /** Prefix added by the catch-all handler that re-raises every other error. */
  const LOAD_PREFIX := "Terjadi kesalahan saat memuat DATA_JSON: "

  predicate IsListOfDicts(v: Value) {
    v.Array? && forall i :: 0 <= i < |v.items| ==> v.items[i].Object?
  }

  function LoadData(raw: Option<string>, decoded: Option<Value>): Result<seq<Value>> {
    if raw.None? || raw.value == "" then Err(LOAD_PREFIX + EMPTY_MESSAGE)
    else match decoded
      case None => Err(DECODE_MESSAGE)
      case Some(v) =>
        if IsListOfDicts(v) then Ok(v.items) else Err(LOAD_PREFIX + SHAPE_MESSAGE)
  }

  /** The loader accepts exactly a non-empty raw value that decodes to a list of
      dicts, and returns that list unchanged; a missing or empty value is
      rejected before decoding is looked at. */
  lemma LoadDataSpec(raw: Option<string>, decoded: Option<Value>)
    ensures LoadData(raw, decoded).Ok? <==>
      raw.Some? && raw.value != "" && decoded.Some? && IsListOfDicts(decoded.value)
    ensures LoadData(raw, decoded).Ok? ==>
      LoadData(raw, decoded).value == decoded.value.items &&
      forall i :: 0 <= i < |LoadData(raw, decoded).value| ==> LoadData(raw, decoded).value[i].Object?
    ensures raw.None? || raw == Some("") ==> LoadData(raw, decoded) == Err(LOAD_PREFIX + EMPTY_MESSAGE)
    ensures raw.Some? && raw.value != "" && decoded.None? ==> LoadData(raw, decoded) == Err(DECODE_MESSAGE)
  {
  }
}
