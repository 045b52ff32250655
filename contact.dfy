/**
 * Address-level resolution for one contact (contact.py).
 *
 * A contact declares a subdistrict ("kecamatan") name that may really be the
 * name of a village, a city or a province. `Contact.InitLevel` decides which
 * administrative tier the name belongs to by looking it up in a four-column
 * boundary table, corrects the matching field, and for a genuine subdistrict
 * classifies its city as "KOTA" (a city) or a regency-type unit by looking at a
 * second table of full city names. Both tables are given to the model instead
 * of being read from spreadsheet and CSV files; their "load once" caches are
 * the `Contact.database` field and the shared `DistrictTable` object.
 */
module Contacts {
  import opened Wrappers
  import opened Strings
  import opened Seqs

  /** The four administrative tiers. */
  datatype Category = Province | City | Kecamatan | Desa

  /** One row of the boundary table: a village and the units above it. */
  datatype Row = Row(desa: string, kecamatan: string, city: string, province: string)

  /** The boundary-table column that holds names of tier `c`. */
  function Column(row: Row, c: Category): string {
    match c
    case Province => row.province
    case City => row.city
    case Kecamatan => row.kecamatan
    case Desa => row.desa
  }

  /** The tier-`c` name of `row` equals `input` up to case. */
  predicate RowMatches(row: Row, c: Category, input: string) {
    Lower(Column(row, c)) == Lower(input)
  }

  /** The rows whose tier-`c` name equals `input` up to case, in table order. */
  function MatchingRows(rows: seq<Row>, c: Category, input: string): (r: seq<Row>)
    ensures forall x {:trigger multiset(r)[x]} ::
              multiset(r)[x] == if RowMatches(x, c, input) then multiset(rows)[x] else 0
    ensures r == [] <==> forall i :: 0 <= i < |rows| ==> !RowMatches(rows[i], c, input)
  {
    Filter(rows, row => RowMatches(row, c, input))
  }

  /** The first matching row is the first row, in table order, that matches. */
  lemma MatchingRowsHead(rows: seq<Row>, c: Category, input: string, i: nat)
    requires i < |rows| && RowMatches(rows[i], c, input)
    requires forall j :: 0 <= j < i ==> !RowMatches(rows[j], c, input)
    ensures MatchingRows(rows, c, input) != [] && MatchingRows(rows, c, input)[0] == rows[i]
  {
    FilterHead(rows, row => RowMatches(row, c, input), i);
  }

  /**
   * The matching rows keep table order: those of a table split in two are the
   * matches of the first part followed by those of the second, and a single
   * row is kept exactly when it matches.
   */
  lemma MatchingRowsAppend(rows1: seq<Row>, rows2: seq<Row>, c: Category, input: string)
    ensures MatchingRows(rows1 + rows2, c, input) ==
              MatchingRows(rows1, c, input) + MatchingRows(rows2, c, input)
    ensures forall row {:trigger MatchingRows([row], c, input)} ::
              MatchingRows([row], c, input) == if RowMatches(row, c, input) then [row] else []
  {
    FilterAppend(rows1, rows2, row => RowMatches(row, c, input));
  }

  /** What `_validate` returns: `(True, matching rows)` or `(False, None)`. */
  datatype Validation = Found(rows: seq<Row>) | NotFound

  /** `_validate` for a recognised tier. */
  function Validate(input: string, c: Category, rows: seq<Row>): (v: Validation)
    ensures v.Found? <==> exists i :: 0 <= i < |rows| && RowMatches(rows[i], c, input)
    ensures v.Found? ==> v.rows == MatchingRows(rows, c, input) && v.rows != []
  {
    var m := MatchingRows(rows, c, input);
    if m != [] then Found(m) else NotFound
  }

  /** The category argument of `_validate`, which Python does not type-check. */
  datatype CategoryArg = Known(category: Category) | Unrecognised(shown: string)

  /** `_validate` for any argument: an unrecognised one raises `ValueError`. */
  function ValidateArg(input: string, arg: CategoryArg, rows: seq<Row>): (r: Result<Validation, string>)
    ensures arg.Unrecognised? <==> r.Failure?
    ensures r.Failure? ==> r.error == "Invalid category provided: " + arg.shown + "."
    ensures arg.Known? ==> r == Success(Validate(input, arg.category, rows))
  {
    match arg
    case Known(c) => Success(Validate(input, c, rows))
    case Unrecognised(shown) => Failure("Invalid category provided: " + shown + ".")
  }

  /** The "bypass" of `_find_level`: the first word, lower-cased, is "kota". */
  predicate IsKotaShortcut(name: string)
    requires !IsBlank(name)
  {
    LowerKeepsBlank(name);
    WordsEmptyIffBlank(Lower(name));
    Words(Lower(name))[0] == "kota"
  }

  /**
   * A classification-table entry without its first word: upper-cased, split on
   * whitespace and joined again from the second word on.
   */
  function BareName(entry: string): string {
    var ws := Words(Upper(entry));
    if ws == [] then "" else Join(ws[1..])
  }

  /** The entry's bare name equals `name` up to case. */
  predicate BareMatches(entry: string, name: string) {
    Lower(BareName(entry)) == Lower(name)
  }

  /** The first word of the upper-cased entry: its rank token ("KOTA", "KABUPATEN"). */
  function RankToken(entry: string): string
    requires Words(Upper(entry)) != []
  {
    Words(Upper(entry))[0]
  }

  /** The index of the first entry whose bare name matches `name`. */
  function FirstBareMatch(names: seq<string>, name: string): (r: Option<nat>)
    ensures r.None? <==> forall j :: 0 <= j < |names| ==> !BareMatches(names[j], name)
    ensures r.Some? ==> r.value < |names| && BareMatches(names[r.value], name)
    ensures r.Some? ==> forall j :: 0 <= j < r.value ==> !BareMatches(names[j], name)
  {
    FirstWhere(names, entry => BareMatches(entry, name), 0)
  }

  /** A non-blank name matches only an entry that has at least two words. */
  lemma BareMatchHasWords(entry: string, name: string)
    requires !IsBlank(name) && BareMatches(entry, name)
    ensures |Words(Upper(entry))| >= 2
  {
    assert |Lower(name)| > 0;
  }

  /** `_find_level`: the rank token of a city name, or None. */
  function FindLevel(kotaKab: Option<string>, names: seq<string>): (r: Option<string>)
    requires kotaKab.Some? ==> !IsBlank(kotaKab.value)
    ensures kotaKab.None? ==> r.None?
    ensures kotaKab.Some? && IsKotaShortcut(kotaKab.value) ==> r == Some("KOTA")
    ensures kotaKab.Some? && !IsKotaShortcut(kotaKab.value) ==>
              (r.None? <==> forall j :: 0 <= j < |names| ==> !BareMatches(names[j], kotaKab.value))
    ensures r.Some? ==> r.value != "" && IsUpperCase(r.value)
  {
    match kotaKab
    case None => None
    case Some(name) =>
      if IsKotaShortcut(name) then
        assert IsUpperCase("KOTA");
        Some("KOTA")
      else
        match FirstBareMatch(names, name)
        case None => None
        case Some(j) =>
          BareMatchHasWords(names[j], name);
          FirstWordOfUpper(names[j]);
          Some(RankToken(names[j]))
  }

  /** Without the shortcut, the level is the rank token of the first matching entry. */
  lemma FindLevelFirstMatch(name: string, names: seq<string>, j: nat)
    requires !IsBlank(name) && !IsKotaShortcut(name)
    requires j < |names| && BareMatches(names[j], name)
    requires forall k :: 0 <= k < j ==> !BareMatches(names[k], name)
    ensures Words(Upper(names[j])) != []
    ensures FindLevel(Some(name), names) == Some(RankToken(names[j]))
  {
    BareMatchHasWords(names[j], name);
    var r := FirstBareMatch(names, name);
    assert r.Some? && r.value == j;
  }

  /** The shortcut answers "KOTA" whatever the classification table holds. */
  lemma ShortcutIgnoresTable(name: string, names1: seq<string>, names2: seq<string>)
    requires !IsBlank(name) && IsKotaShortcut(name)
    ensures FindLevel(Some(name), names1) == FindLevel(Some(name), names2) == Some("KOTA")
  {
  }

  /** The bare-name comparison ignores case on the entry side too. */
  lemma BareNameCaseInsensitive(entry: string, name: string)
    ensures BareMatches(entry, name) <==> BareMatches(Upper(entry), name)
  {
    UpperAt(entry);
    UpperAt(Upper(entry));
    assert Upper(Upper(entry)) == Upper(entry);
  }

  /** The locality fields of a contact and its level. */
  datatype Locality = Locality(
    province: string, city: string, kecamatan: Option<string>, address: string, level: Option<string>)

  /** The tiers tried, in order, when the declared subdistrict is not one. */
  const FallbackOrder: seq<Category> := [Desa, City, Province]

  /** The position of the first tier of `order` in which `input` is found. */
  function FirstFallback(input: string, rows: seq<Row>, order: seq<Category>): (r: Option<nat>)
    ensures r.None? <==> forall k :: 0 <= k < |order| ==> Validate(input, order[k], rows).NotFound?
    ensures r.Some? ==> r.value < |order| && Validate(input, order[r.value], rows).Found?
    ensures r.Some? ==> forall k :: 0 <= k < r.value ==> Validate(input, order[k], rows).NotFound?
  {
    FirstWhere(order, c => Validate(input, c, rows).Found?, 0)
  }

  /** The tier at position `i` is the first one in which `input` is found. */
  lemma FirstFallbackAt(input: string, rows: seq<Row>, order: seq<Category>, i: nat)
    requires i < |order| && Validate(input, order[i], rows).Found?
    requires forall k :: 0 <= k < i ==> Validate(input, order[k], rows).NotFound?
    ensures FirstFallback(input, rows, order) == Some(i)
  {
    var r := FirstFallback(input, rows, order);
    assert r.Some? by {
      assert Validate(input, order[i], rows).Found?;
    }
    assert !(r.value < i) && !(i < r.value);
  }

  /** The field correction for a name confirmed at tier `c`. */
  function Correct(loc: Locality, c: Category, name: string): (r: Locality)
    ensures Column(Row(r.address, r.kecamatan.GetOr(""), r.city, r.province), c) == name
  {
    match c
    case Province => loc.(province := name)
    case City => loc.(city := name)
    case Kecamatan => loc.(kecamatan := Some(name))
    case Desa => loc.(address := name)
  }

  /** The declared subdistrict is missing or empty, so resolution is skipped. */
  predicate Skips(kecamatan: Option<string>) {
    kecamatan.None? || kecamatan.value == ""
  }

  /**
   * What `_find_level` needs from the table: a subdistrict match whose first
   * row has a blank city name makes `split()[0]` raise.
   */
  predicate Resolvable(loc: Locality, rows: seq<Row>) {
    !Skips(loc.kecamatan) && Validate(loc.kecamatan.value, Kecamatan, rows).Found? ==>
      !IsBlank(Validate(loc.kecamatan.value, Kecamatan, rows).rows[0].city)
  }

  /** Resolution reads the classification table (no shortcut was taken). */
  predicate ReadsDistricts(loc: Locality, rows: seq<Row>)
    requires Resolvable(loc, rows)
  {
    !Skips(loc.kecamatan) && Validate(loc.kecamatan.value, Kecamatan, rows).Found?
    && !IsKotaShortcut(Validate(loc.kecamatan.value, Kecamatan, rows).rows[0].city)
  }

  /** The correction made when `input` is not a subdistrict name. */
  function Fallback(loc: Locality, input: string, rows: seq<Row>): (r: Locality)
    ensures r.kecamatan == loc.kecamatan
  {
    match FirstFallback(input, rows, FallbackOrder)
    case None => loc
    case Some(k) => Correct(loc, FallbackOrder[k], input).(level := None)
  }

  /** The effect of `init_level` on the locality fields, given both tables. */
  function ResolveLevel(loc: Locality, rows: seq<Row>, names: seq<string>): (r: Locality)
    requires Resolvable(loc, rows)
    ensures r.kecamatan == loc.kecamatan
  {
    if Skips(loc.kecamatan) then loc
    else
      var input := loc.kecamatan.value;
      match Validate(input, Kecamatan, rows)
      case Found(m) => loc.(level := FindLevel(Some(m[0].city), names))
      case NotFound => Fallback(loc, input, rows)
  }

  /** An empty or missing subdistrict leaves every field and the level as they were. */
  lemma ResolveSkipped(loc: Locality, rows: seq<Row>, names: seq<string>)
    requires Skips(loc.kecamatan)
    ensures ResolveLevel(loc, rows, names) == loc
  {
  }

  /**
   * A genuine subdistrict: the level is that of the city in the first row
   * naming it, and no field changes.
   */
  lemma ResolveSubdistrict(loc: Locality, rows: seq<Row>, names: seq<string>, i: nat)
    requires !Skips(loc.kecamatan)
    requires i < |rows| && RowMatches(rows[i], Kecamatan, loc.kecamatan.value)
    requires forall j :: 0 <= j < i ==> !RowMatches(rows[j], Kecamatan, loc.kecamatan.value)
    requires !IsBlank(rows[i].city)
    ensures Resolvable(loc, rows)
    ensures ResolveLevel(loc, rows, names) == loc.(level := FindLevel(Some(rows[i].city), names))
  {
    MatchingRowsHead(rows, Kecamatan, loc.kecamatan.value, i);
  }

  /** No row names `input` at tier `c`. */
  predicate Absent(input: string, c: Category, rows: seq<Row>) {
    forall i :: 0 <= i < |rows| ==> !RowMatches(rows[i], c, input)
  }

  /** Some row names `input` at tier `c`. */
  predicate Present(input: string, c: Category, rows: seq<Row>) {
    exists i :: 0 <= i < |rows| && RowMatches(rows[i], c, input)
  }

  /** The fallback order tries village, then city, then province. */
  lemma FallbackOrderCases(input: string, rows: seq<Row>)
    ensures FirstFallback(input, rows, FallbackOrder) ==
              if Validate(input, Desa, rows).Found? then Some(0)
              else if Validate(input, City, rows).Found? then Some(1)
              else if Validate(input, Province, rows).Found? then Some(2)
              else None
  {
    var f := FirstFallback(input, rows, FallbackOrder);
    assert FallbackOrder[0] == Desa && FallbackOrder[1] == City && FallbackOrder[2] == Province;
    if f.Some? {
      assert f.value < 3;
    }
  }

  /**
   * Not a subdistrict: the first of village, city, province that knows the
   * name receives it (address, city or province field), the level becomes None
   * and later tiers are not tried; if none knows it, nothing changes.
   */
  lemma ResolveFallback(loc: Locality, rows: seq<Row>, names: seq<string>)
    requires !Skips(loc.kecamatan) && Absent(loc.kecamatan.value, Kecamatan, rows)
    ensures Resolvable(loc, rows)
    ensures var k := loc.kecamatan.value;
            var r := ResolveLevel(loc, rows, names);
            && (Present(k, Desa, rows) ==> r == loc.(address := k, level := None))
            && (Absent(k, Desa, rows) && Present(k, City, rows) ==> r == loc.(city := k, level := None))
            && (Absent(k, Desa, rows) && Absent(k, City, rows) && Present(k, Province, rows) ==>
                  r == loc.(province := k, level := None))
            && (Absent(k, Desa, rows) && Absent(k, City, rows) && Absent(k, Province, rows) ==> r == loc)
  {
    var k := loc.kecamatan.value;
    assert Validate(k, Kecamatan, rows).NotFound? by {
      PresentIffFound(k, Kecamatan, rows);
    }
    var r := ResolveLevel(loc, rows, names);
    assert r == Fallback(loc, k, rows);
    FallbackOrderCases(k, rows);
    CorrectFields(loc, k);
    if Present(k, Desa, rows) {
      PresentIffFound(k, Desa, rows);
      assert r == Correct(loc, Desa, k).(level := None);
      assert r == loc.(address := k, level := None);
    } else if Present(k, City, rows) {
      PresentIffFound(k, Desa, rows);
      PresentIffFound(k, City, rows);
      assert r == Correct(loc, City, k).(level := None);
      assert r == loc.(city := k, level := None);
    } else if Present(k, Province, rows) {
      PresentIffFound(k, Desa, rows);
      PresentIffFound(k, City, rows);
      PresentIffFound(k, Province, rows);
      assert r == Correct(loc, Province, k).(level := None);
      assert r == loc.(province := k, level := None);
    } else {
      PresentIffFound(k, Desa, rows);
      PresentIffFound(k, City, rows);
      PresentIffFound(k, Province, rows);
    }
  }

  /** The field each fallback tier corrects. */
  lemma CorrectFields(loc: Locality, name: string)
    ensures Correct(loc, Desa, name) == loc.(address := name)
    ensures Correct(loc, City, name) == loc.(city := name)
    ensures Correct(loc, Province, name) == loc.(province := name)
  {
  }

  /** `_validate` finds a name exactly when some row holds it at that tier. */
  lemma PresentIffFound(input: string, c: Category, rows: seq<Row>)
    ensures Present(input, c, rows) <==> Validate(input, c, rows).Found?
    ensures Absent(input, c, rows) <==> Validate(input, c, rows).NotFound?
  {
  }

  /** Resolving a second time with the same tables changes nothing more. */
  lemma ResolveIdempotent(loc: Locality, rows: seq<Row>, names: seq<string>)
    requires Resolvable(loc, rows)
    ensures Resolvable(ResolveLevel(loc, rows, names), rows)
    ensures ResolveLevel(ResolveLevel(loc, rows, names), rows, names) == ResolveLevel(loc, rows, names)
  {
    if !Skips(loc.kecamatan) {
      var k := loc.kecamatan.value;
      var r := ResolveLevel(loc, rows, names);
      if Validate(k, Kecamatan, rows).Found? {
        assert r == loc.(level := r.level);
      } else {
        assert r == Fallback(loc, k, rows);
        FallbackIdempotent(loc, k, rows);
      }
    }
  }

  /** Falling back twice on the same name is falling back once. */
  lemma FallbackIdempotent(loc: Locality, input: string, rows: seq<Row>)
    ensures Fallback(Fallback(loc, input, rows), input, rows) == Fallback(loc, input, rows)
  {
    var f := FirstFallback(input, rows, FallbackOrder);
    if f.Some? {
      var c := FallbackOrder[f.value];
      var once := Correct(loc, c, input).(level := None);
      assert Fallback(loc, input, rows) == once;
      assert Fallback(once, input, rows) == Correct(once, c, input).(level := None);
      CorrectTwice(loc, c, input);
    }
  }

  /** Correcting a field a second time with the same name changes nothing. */
  lemma CorrectTwice(loc: Locality, c: Category, name: string)
    ensures Correct(Correct(loc, c, name).(level := None), c, name).(level := None)
            == Correct(loc, c, name).(level := None)
  {
  }

  /** A city name whose first five characters are "kota " up to case takes the shortcut. */
  lemma KotaPrefixIsShortcut(city: string)
    requires |city| >= 5 && Lower(city[..5]) == "kota "
    ensures !IsBlank(city) && IsKotaShortcut(city)
  {
    LowerAt(city);
    LowerAt(city[..5]);
    assert Lower(city)[..5] == "kota ";
    assert !IsSpace(city[0]) by {
      assert LowerChar(city[0]) == 'k';
    }
    StartsWithKota(Lower(city));
  }

  /** The characters of a string that starts with "kota ". */
  lemma KotaPrefix(s: string)
    requires |s| >= 5 && s[..5] == "kota "
    ensures s[..4] == "kota" && IsSpace(s[4])
    ensures forall i :: 0 <= i < 4 ==> !IsSpace(s[i])
  {
    assert s[0] == 'k' && s[1] == 'o' && s[2] == 't' && s[3] == 'a' && s[4] == ' ';
  }

  /** A string that starts with "kota " has "kota" as its first word. */
  lemma StartsWithKota(s: string)
    requires |s| >= 5 && s[..5] == "kota "
    ensures Words(s) != [] && Words(s)[0] == "kota"
  {
    KotaPrefix(s);
    FirstWordIs(s, s[..4]);
  }

  /**
   * A genuine subdistrict whose first matching row names a city such as
   * "Kota Makassar" resolves to the level "KOTA" whatever the classification
   * table holds.
   */
  lemma ResolveToKota(loc: Locality, rows: seq<Row>, names: seq<string>, i: nat)
    requires !Skips(loc.kecamatan)
    requires i < |rows| && RowMatches(rows[i], Kecamatan, loc.kecamatan.value)
    requires forall j :: 0 <= j < i ==> !RowMatches(rows[j], Kecamatan, loc.kecamatan.value)
    requires |rows[i].city| >= 5 && Lower(rows[i].city[..5]) == "kota "
    ensures Resolvable(loc, rows)
    ensures ResolveLevel(loc, rows, names) == loc.(level := Some("KOTA"))
  {
    KotaPrefixIsShortcut(rows[i].city);
    ResolveSubdistrict(loc, rows, names, i);
  }

  /** The dataclass fields of a contact, as its constructor takes them. */
  datatype ContactFields = ContactFields(
    id: string, name: string, phoneNumber: string, gender: string, age: string,
    education: string, occupation: string, marriage: string, attitude: string,
    persona: string, summary: string, extraInfo: string, statusHp: string, suku: string,
    province: string, city: string, kecamatan: Option<string>, address: string)

  /** The classification table, read at most once and shared by all contacts. */
  class DistrictTable {
    var table: Option<seq<string>>

    constructor ()
      ensures table.None?
    {
      table := None;
    }

    /** `load_districts`: reads `source` on first use, then keeps answering with it. */
    method Load(source: seq<string>) returns (names: seq<string>)
      modifies this
      ensures names == old(table).GetOr(source)
      ensures table == Some(names)
    {
      if table.None? {
        table := Some(source);
      }
      names := table.value;
    }
  }

  class Contact {
    var id: string
    var name: string
    var phoneNumber: string
    var gender: string
    var age: string
    var education: string
    var occupation: string
    var marriage: string
    var attitude: string
    var persona: string
    var summary: string
    var extraInfo: string
    var statusHp: string
    var suku: string
    var province: string
    var city: string
    var kecamatan: Option<string>
    var address: string
    /** `_level`: None until resolution assigns it. */
    var level: Option<string>
    /** `_df_database`: the boundary table once loaded. */
    var database: Option<seq<Row>>

    constructor (f: ContactFields)
      ensures Fields() == f && level.None? && database.None?
    {
      id, name, phoneNumber, gender, age := f.id, f.name, f.phoneNumber, f.gender, f.age;
      education, occupation, marriage, attitude := f.education, f.occupation, f.marriage, f.attitude;
      persona, summary, extraInfo, statusHp, suku := f.persona, f.summary, f.extraInfo, f.statusHp, f.suku;
      province, city, kecamatan, address := f.province, f.city, f.kecamatan, f.address;
      level := None;
      database := None;
    }

    function Fields(): ContactFields
      reads this
    {
      ContactFields(id, name, phoneNumber, gender, age, education, occupation, marriage, attitude,
                    persona, summary, extraInfo, statusHp, suku, province, city, kecamatan, address)
    }

    function CurrentLocality(): Locality
      reads this
    {
      Locality(province, city, kecamatan, address, level)
    }

    /**
     * The `level` property. The class attribute `_level = None` makes the
     * `hasattr` test always succeed, so reading never runs `init_level`.
     */
    method GetLevel() returns (l: Option<string>)
      ensures l == level
    {
      l := level;
    }

    /** The `level` setter. */
    method SetLevel(value: Option<string>)
      modifies this`level
      ensures level == value
    {
      level := value;
    }

    /** `get_db`. */
    method GetDb() returns (db: Option<seq<Row>>)
      ensures db == database
    {
      db := database;
    }

    /** `init_db`: the boundary table read from its source. */
    method InitDb(source: seq<Row>)
      modifies this`database
      ensures database == Some(source)
    {
      database := Some(source);
    }

    /** `validate` / `_validate`: loads the table if needed, then checks the argument. */
    method ValidateWithCache(input: string, arg: CategoryArg, source: seq<Row>)
      returns (r: Result<Validation, string>)
      modifies this`database
      ensures database == Some(old(database).GetOr(source))
      ensures r == ValidateArg(input, arg, database.value)
    {
      if database.None? {
        InitDb(source);
      }
      r := ValidateArg(input, arg, database.value);
    }

    /** `find_level` / `_find_level`: the table is loaded only when the shortcut does not apply. */
    method FindLevelWithCache(kotaKab: Option<string>, districts: DistrictTable, source: seq<string>)
      returns (r: Option<string>)
      requires kotaKab.Some? ==> !IsBlank(kotaKab.value)
      modifies districts
      ensures r == FindLevel(kotaKab, old(districts.table).GetOr(source))
      ensures districts.table ==
                if kotaKab.Some? && !IsKotaShortcut(kotaKab.value)
                then Some(old(districts.table).GetOr(source)) else old(districts.table)
    {
      if kotaKab.None? {
        return None;
      }
      if IsKotaShortcut(kotaKab.value) {
        return Some("KOTA");
      }
      var names := districts.Load(source);
      r := FindLevel(kotaKab, names);
    }

    /** The field assignment for the tier `c` in which `value` was found. */
    method SetField(c: Category, value: string)
      modifies this`province, this`city, this`kecamatan, this`address
      ensures CurrentLocality() == Correct(old(CurrentLocality()), c, value)
    {
      if c == Province {
        province := value;
      } else if c == City {
        city := value;
      } else if c == Kecamatan {
        kecamatan := Some(value);
      } else if c == Desa {
        address := value;
      }
    }

    /**
     * The `for ... else` loop of `init_level`: the first of village, city and
     * province that knows `input` has its field set to `input`, and the loop stops.
     */
    method CorrectFallback(input: string, rows: seq<Row>) returns (matched: bool)
      modifies this`province, this`city, this`kecamatan, this`address
      ensures matched <==> FirstFallback(input, rows, FallbackOrder).Some?
      ensures matched ==>
                CurrentLocality() ==
                Correct(old(CurrentLocality()), FallbackOrder[FirstFallback(input, rows, FallbackOrder).value], input)
      ensures !matched ==> CurrentLocality() == old(CurrentLocality())
    {
      var order := FallbackOrder;
      var i := 0;
      matched := false;
      while i < |order|
        invariant 0 <= i <= |order|
        invariant forall k :: 0 <= k < i ==> Validate(input, order[k], rows).NotFound?
        invariant CurrentLocality() == old(CurrentLocality())
        invariant !matched
      {
        var category := order[i];
        var w := Validate(input, category, rows);
        if w.Found? {
          SetField(category, input);
          matched := true;
          break;
        }
        i := i + 1;
      }
      if matched {
        FirstFallbackAt(input, rows, order, i);
      }
    }

    /**
     * `init_level`: resolves the tier of the declared subdistrict, corrects the
     * field of the tier it really belongs to, and sets the level.
     */
    method InitLevel(boundarySource: seq<Row>, districts: DistrictTable, districtSource: seq<string>)
      requires Resolvable(CurrentLocality(), database.GetOr(boundarySource))
      modifies this`province, this`city, this`kecamatan, this`address, this`level, this`database
      modifies districts
      ensures CurrentLocality() == ResolveLevel(old(CurrentLocality()), old(database).GetOr(boundarySource),
                                         old(districts.table).GetOr(districtSource))
      ensures database == if Skips(old(kecamatan)) then old(database)
                          else Some(old(database).GetOr(boundarySource))
      ensures districts.table ==
                if ReadsDistricts(old(CurrentLocality()), old(database).GetOr(boundarySource))
                then Some(old(districts.table).GetOr(districtSource)) else old(districts.table)
    {
      if kecamatan.None? || kecamatan.value == "" {
        return;
      }
      var input := kecamatan.value;
      if database.None? {
        InitDb(boundarySource);
      }
      var rows := database.value;
      assert !Skips(old(kecamatan)) && rows == old(database).GetOr(boundarySource);
      ghost var loc0 := old(CurrentLocality());
      ghost var names := old(districts.table).GetOr(districtSource);
      var v := Validate(input, Kecamatan, rows);
      if v.Found? {
        var lvl := FindLevelWithCache(Some(v.rows[0].city), districts, districtSource);
        assert CurrentLocality().(level := lvl) == ResolveLevel(loc0, rows, names);
        level := lvl;
        assert database == Some(rows);
      } else {
        var matched := CorrectFallback(input, rows);
        assert database == Some(rows);
        assert ResolveLevel(loc0, rows, names) == Fallback(loc0, input, rows);
        assert !ReadsDistricts(loc0, rows);
        if matched {
          level := None;
        }
      }
    }
  }
}
