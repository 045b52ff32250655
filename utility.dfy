/**
 * String helpers of the extraction pipeline (utility.py): trimming a model
 * reply to its JSON object, naming the output workbook, extracting the
 * conversation identifier from a file path, and turning the decoded reply
 * into a contact.
 */
module Utility {
  import opened Wrappers
  import opened Strings
  import opened Contacts

  /** `s.index(c)`: the position of the first `c`, or None where Python raises. */
  function FirstIndex(s: string, c: char): (r: Option<nat>)
    ensures r.None? <==> c !in s
    ensures r.Some? ==> r.value < |s| && s[r.value] == c && c !in s[..r.value]
  {
    if s == [] then None
    else if s[0] == c then Some(0)
    else
      match FirstIndex(s[1..], c)
      case None => None
      case Some(i) =>
        assert s[..i + 1] == [s[0]] + s[1..][..i];
        Some(i + 1)
  }

  /** `s.rindex(c)`: the position of the last `c`, or None where Python raises. */
  function LastIndex(s: string, c: char): (r: Option<nat>)
    ensures r.None? <==> c !in s
    ensures r.Some? ==> r.value < |s| && s[r.value] == c && c !in s[r.value + 1..]
  {
    if s == [] then None
    else if s[|s| - 1] == c then Some(|s| - 1)
    else
      var init := s[..|s| - 1];
      match LastIndex(init, c)
      case None =>
        assert s == init + [s[|s| - 1]];
        None
      case Some(i) =>
        assert s[i + 1..] == init[i + 1..] + [s[|s| - 1]];
        Some(i)
  }

  /**
   * `clean_json`: the text from the first "{" to the last "}", both included,
   * or "" when a brace is missing or the last "}" comes before the first "{".
   */
  function CleanJson(s: string): (r: string)
    ensures r == "" <==>
              (FirstIndex(s, '{').None? || LastIndex(s, '}').None?
               || LastIndex(s, '}').value < FirstIndex(s, '{').value)
    ensures r != "" ==>
              && r == s[FirstIndex(s, '{').value..LastIndex(s, '}').value + 1]
              && r[0] == '{' && r[|r| - 1] == '}'
  {
    match (FirstIndex(s, '{'), LastIndex(s, '}'))
    case (Some(start), Some(end)) =>
      // Python's slice s[start:end + 1] is empty when end + 1 <= start.
      if end < start then "" else s[start..end + 1]
    case _ => ""
  }

  /** A non-empty result is a contiguous part of the input, from a "{" to a "}". */
  lemma CleanJsonIsSlice(s: string)
    requires CleanJson(s) != ""
    ensures exists i, j :: 0 <= i < j <= |s| && CleanJson(s) == s[i..j]
  {
    var i, j := FirstIndex(s, '{').value, LastIndex(s, '}').value + 1;
    assert CleanJson(s) == s[i..j];
  }

  /** Cleaning an already cleaned reply changes nothing. */
  lemma CleanJsonIdempotent(s: string)
    ensures CleanJson(CleanJson(s)) == CleanJson(s)
  {
    var r := CleanJson(s);
    if r != "" {
      var start, end := FirstIndex(s, '{').value, LastIndex(s, '}').value;
      assert r == s[start..end + 1];
      assert FirstIndex(r, '{') == Some(0);
      assert forall k :: 0 <= k < |r| ==> r[k] == s[start + k];
      assert '}' !in r[|r|..];
      assert LastIndex(r, '}') == Some(|r| - 1);
      assert r[0..|r|] == r;
    }
  }

  /** `validate_excel`: appends ".xlsx" unless the name already contains it. */
  function ValidateExcel(filename: string): (r: string)
    ensures Contains(r, ".xlsx")
    ensures Contains(filename, ".xlsx") ==> r == filename
    ensures !Contains(filename, ".xlsx") ==> r == filename + ".xlsx"
  {
    if Contains(filename, ".xlsx") then filename
    else
      ContainsAt(filename + ".xlsx", ".xlsx", |filename|);
      filename + ".xlsx"
  }

  /** Validating a workbook name twice is validating it once. */
  lemma ValidateExcelIdempotent(filename: string)
    ensures ValidateExcel(ValidateExcel(filename)) == ValidateExcel(filename)
  {
  }

  /** `os.path.basename`: the text after the last "/". */
  function Basename(path: string): (r: string)
    ensures '/' !in r
    ensures |r| <= |path| && r == path[|path| - |r|..]
    ensures |r| < |path| ==> path[|path| - |r| - 1] == '/'
  {
    match LastIndex(path, '/')
    case None => path
    case Some(i) => path[i + 1..]
  }

  /** The pattern `([A-Z])\s(\d{4})` matches `name` at position `i`. */
  predicate IdAt(name: string, i: nat) {
    i + 6 <= |name| && IsAsciiUpper(name[i]) && IsSpace(name[i + 1])
    && IsDigit(name[i + 2]) && IsDigit(name[i + 3]) && IsDigit(name[i + 4]) && IsDigit(name[i + 5])
  }

  /** The leftmost position, at or after `from`, where the identifier pattern matches. */
  function FirstIdAt(name: string, from: nat): (r: Option<nat>)
    ensures r.None? <==> forall i :: from <= i ==> !IdAt(name, i)
    ensures r.Some? ==> from <= r.value && IdAt(name, r.value)
    ensures r.Some? ==> forall i :: from <= i < r.value ==> !IdAt(name, i)
    decreases |name| - from
  {
    if from + 6 > |name| then None
    else if IdAt(name, from) then Some(from)
    else FirstIdAt(name, from + 1)
  }

  /** `i` is the leftmost position where the identifier pattern matches. */
  predicate IsFirstIdAt(name: string, i: nat) {
    IdAt(name, i) && forall k :: 0 <= k < i ==> !IdAt(name, k)
  }

  /** The identifier matched at `i`: its letter, one space, its four digits. */
  function IdText(name: string, i: nat): string
    requires IdAt(name, i)
  {
    [name[i], ' '] + name[i + 2..i + 6]
  }

  /**
   * `get_file_id` (the later of its two identical definitions): the first
   * upper-case letter, whitespace character and four digits in the file name,
   * returned as letter, one space, digits.
   */
  function GetFileId(path: string): (r: Option<string>)
    ensures r.None? <==> forall i :: !IdAt(Basename(path), i)
    ensures r.Some? ==> exists i: nat :: IsFirstIdAt(Basename(path), i) && r.value == IdText(Basename(path), i)
  {
    var name := Basename(path);
    match FirstIdAt(name, 0)
    case None => None
    case Some(i) => Some(IdText(name, i))
  }

  /** An identifier is always six characters: letter, single space, four digits. */
  lemma FileIdShape(path: string)
    requires GetFileId(path).Some?
    ensures var id := GetFileId(path).value;
            |id| == 6 && IsAsciiUpper(id[0]) && id[1] == ' '
            && IsDigit(id[2]) && IsDigit(id[3]) && IsDigit(id[4]) && IsDigit(id[5])
  {
    var name := Basename(path);
    var i := FirstIdAt(name, 0).value;
    assert GetFileId(path).value == IdText(name, i) == [name[i], ' '] + name[i + 2..i + 6];
  }

  /** The decoded JSON keys that `parse_json_to_contact` reads, one per contact field. */
  const NameKey := "name_result"
  const PhoneKey := "handphone_result"
  const GenderKey := "gender_result"
  const AgeKey := "age_result"
  const EducationKey := "education_result"
  const OccupationKey := "occupation_result"
  const MarriageKey := "marriage_result"
  const AttitudeKey := "attitude_result"
  const PersonaKey := "persona_initial_theme"
  const SummaryKey := "comments_idn"
  const ExtraInfoKey := "extra_info"
  const StatusHpKey := "status_hp_result"
  const SukuKey := "suku_result"
  const ProvinceKey := "address_province_result"
  const CityKey := "address_city_result"
  const KecamatanKey := "address_kecamatan_result"
  const AddressKey := "address_detail_result"

  /** `data.get(key, "")`. */
  function Get(data: map<string, string>, key: string): string {
    if key in data then data[key] else ""
  }

  /** The contact fields read from a decoded reply; `id` keeps its default "". */
  function JsonFields(data: map<string, string>): ContactFields {
    ContactFields(
      id := "",
      name := Get(data, NameKey), phoneNumber := Get(data, PhoneKey), gender := Get(data, GenderKey),
      age := Get(data, AgeKey), education := Get(data, EducationKey), occupation := Get(data, OccupationKey),
      marriage := Get(data, MarriageKey), attitude := Get(data, AttitudeKey), persona := Get(data, PersonaKey),
      summary := Get(data, SummaryKey), extraInfo := Get(data, ExtraInfoKey), statusHp := Get(data, StatusHpKey),
      suku := Get(data, SukuKey), province := Get(data, ProvinceKey), city := Get(data, CityKey),
      kecamatan := Some(Get(data, KecamatanKey)), address := Get(data, AddressKey))
  }

  /** The reply a model would give for `f`: every read key holding its field. */
  function ToJson(f: ContactFields): (data: map<string, string>)
    requires f.kecamatan.Some?
  {
    map[NameKey := f.name, PhoneKey := f.phoneNumber, GenderKey := f.gender, AgeKey := f.age,
        EducationKey := f.education, OccupationKey := f.occupation, MarriageKey := f.marriage,
        AttitudeKey := f.attitude, PersonaKey := f.persona, SummaryKey := f.summary,
        ExtraInfoKey := f.extraInfo, StatusHpKey := f.statusHp, SukuKey := f.suku,
        ProvinceKey := f.province, CityKey := f.city, KecamatanKey := f.kecamatan.value,
        AddressKey := f.address]
  }

  /** Every field is read back from its own key: the mapping loses nothing but `id`. */
  lemma JsonFieldsRoundTrip(f: ContactFields)
    requires f.kecamatan.Some?
    ensures JsonFields(ToJson(f)) == f.(id := "")
  {
  }

  /** Keys outside the mapping, and missing keys, leave the fields as the defaults say. */
  lemma JsonFieldsDefaults(data: map<string, string>, key: string, value: string)
    requires key !in {NameKey, PhoneKey, GenderKey, AgeKey, EducationKey, OccupationKey, MarriageKey,
                      AttitudeKey, PersonaKey, SummaryKey, ExtraInfoKey, StatusHpKey, SukuKey,
                      ProvinceKey, CityKey, KecamatanKey, AddressKey}
    ensures JsonFields(data[key := value]) == JsonFields(data)
    ensures JsonFields(map[]) == ContactFields("", "", "", "", "", "", "", "", "", "", "", "", "", "", "", "", Some(""), "")
  {
  }

  /**
   * `parse_json_to_contact` on an already decoded reply: None stands for text
   * that is not a JSON object, for which the source logs and returns None.
   */
  method ParseJsonToContact(decoded: Option<map<string, string>>) returns (c: Contact?)
    ensures decoded.None? <==> c == null
    ensures c != null ==> fresh(c) && c.Fields() == JsonFields(decoded.value)
    ensures c != null ==> c.level.None? && c.database.None?
  {
    match decoded
    case None => c := null;
    case Some(data) => c := new Contact(JsonFields(data));
  }
}
