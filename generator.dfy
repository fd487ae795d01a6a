/** The registry construction of generation/generate-dbcs.js (lines 67-108).

    Starting from a seed alias map, the generator walks every member of
    every encoding family in order; for each it derives the converter name
    and the registry key, builds the table (which may abort the whole run),
    then inserts `key -> {type: "dbcs", filename}` and `alias -> key` for
    each alias, by plain assignment: a later insertion overwrites an earlier
    one, and nothing checks for duplicates.

    Generate and its helpers are the specification, a left fold over the
    members; GenerateRegistry is the imperative loop and is proved to
    compute exactly Generate. */
module Generator {
  import opened Converter
  import opened TableBuilder
  import opened Naming

  /** A registry value: an alias naming another key, or a table entry
      `{type: kind, filename: filename}`. */
  datatype Value = Alias(target: string) | Table(kind: string, filename: string)

  type Registry = map<string, Value>

  /** The hand-written aliases the registry starts from (lines 81-84). */
  const Seed: Registry := map["euccn" := Alias("gb2312")]

  /** A family member after the optional `family.convert`: a bare name, or
      an object with a `name` and a list of `aliases`. */
  datatype Member = Plain(name: string) | Described(name: string, aliases: seq<string>)

  /** An encoding family: its member names and an optional rewrite. */
  datatype Family = Family(encodings: seq<string>, convert: Option<string -> Member>)

  /** The family list of the generator (lines 67-78). */
  const EncodingFamilies: seq<Family> := [Family(["gbk", "gb2312", "big5", "euc-kr", "cp936"], None)]

  /** A compressed table file handed to the storage layer, given by its
      uncompressed contents. */
  datatype TableFile = TableFile(filename: string, contents: seq<Byte>)

  /** Why a run stops: a converted member whose `name` is empty (so the
      object itself reaches `.replace`, a TypeError), or a table build that
      aborted. */
  datatype Failure =
    | NoConverterName(encoding: string)        // converted member with an empty name
    | UnknownConverter(encoding: string)       // `new Iconv(name, "UTF-8")` threw
    | TableFailed(encoding: string, reason: Abort)

  /** The state of a run: the registry and the table files so far, or the
      failure that stopped it (then the registry file is never written). */
  datatype Generation = Generated(registry: Registry, files: seq<TableFile>) | Halted(failure: Failure)

  /** The table build for each converter name: None when no converter
      exists for the name, else the outcome of the build. The generator only
      sees `writeTable`'s outcome, so the fold is stated over this function. */
  type Tables = string -> Option<Outcome>

  /** The builds of the generator: `writeTable` over `new Iconv(name, "UTF-8")`. */
  function TablesOf(iconv: Converters): Tables {
    name => match iconv(name)
            case None => None
            case Some(conv) => Some(Build(conv))
  }

  // ---------------------------------------------------------------------
  // One member

  /** The member as the loop sees it, after `family.convert` (lines 89-90). */
  function MemberOf(family: Family, raw: string): Member {
    match family.convert
    case None => Plain(raw)
    case Some(convert) => convert(raw)
  }

  /** `encoding.name ? encoding.name : encoding` (line 92): None when the
      converted object has an empty (falsy) name. */
  function ConverterName(m: Member): Option<string> {
    match m
    case Plain(name) => Some(name)
    case Described(name, _) => if name != "" then Some(name) else None
  }

  /** `encoding.aliases`, absent on a bare name (line 103). */
  function AliasesOf(m: Member): seq<string> {
    match m
    case Plain(_) => []
    case Described(_, aliases) => aliases
  }

  /** `encodings[alias] = key` for each alias in order (lines 104-106). */
  function AddAliases(reg: Registry, aliases: seq<string>, key: string): Registry {
    if aliases == [] then reg
    else AddAliases(reg, aliases[..|aliases| - 1], key)[aliases[|aliases| - 1] := Alias(key)]
  }

  /** One iteration of the member loop (lines 89-106). */
  function AddEncoding(g: Generation, family: Family, raw: string, tables: Tables): Generation {
    match g
    case Halted(_) => g
    case Generated(reg, files) =>
      var m := MemberOf(family, raw);
      match ConverterName(m)
      case None => Halted(NoConverterName(raw))
      case Some(name) =>
        var key := Normalize(name);
        var filename := Filename(key);
        match tables(name)
        case None => Halted(UnknownConverter(name))
        case Some(Aborted(e)) => Halted(TableFailed(name, e))
        case Some(Built(table, _)) =>
          Generated(AddAliases(reg[key := Table("dbcs", filename)], AliasesOf(m), key),
                    files + [TableFile(filename, table)])
  }

  /** The member loop over one family (line 88). */
  function AddMembers(g: Generation, family: Family, raws: seq<string>, tables: Tables): Generation {
    if raws == [] then g
    else AddEncoding(AddMembers(g, family, raws[..|raws| - 1], tables), family, raws[|raws| - 1], tables)
  }

  /** The family loop (line 87). */
  function AddFamilies(g: Generation, families: seq<Family>, tables: Tables): Generation {
    if families == [] then g
    else
      var last := families[|families| - 1];
      AddMembers(AddFamilies(g, families[..|families| - 1], tables), last, last.encodings, tables)
  }

  /** The whole run: the fold over all families from the seed. */
  function Generate(families: seq<Family>, tables: Tables): Generation {
    AddFamilies(Generated(Seed, []), families, tables)
  }

  // ---------------------------------------------------------------------
  // Reference definitions

  /** The table of a converter name builds: a converter exists for it and
      the build does not abort. */
  predicate Builds(tables: Tables, name: string) {
    tables(name).Some? && tables(name).value.Built?
  }

  /** The member's table builds: it has a converter name and its table
      builds. */
  predicate MemberBuilds(family: Family, raw: string, tables: Tables) {
    var m := MemberOf(family, raw);
    ConverterName(m).Some? && Builds(tables, ConverterName(m).value)
  }

  /** Every member of every family builds. */
  predicate AllBuild(families: seq<Family>, tables: Tables) {
    forall fi, ei :: 0 <= fi < |families| && 0 <= ei < |families[fi].encodings| ==>
      MemberBuilds(families[fi], families[fi].encodings[ei], tables)
  }

  /** The keys one member contributes: its normalized name and its aliases. */
  function MemberKeys(family: Family, raw: string): set<string> {
    var m := MemberOf(family, raw);
    match ConverterName(m)
    case None => {}
    case Some(name) => {Normalize(name)} + set a | a in AliasesOf(m)
  }

  /** The keys of a list of members. */
  function MembersKeys(family: Family, raws: seq<string>): set<string> {
    if raws == [] then {}
    else MembersKeys(family, raws[..|raws| - 1]) + MemberKeys(family, raws[|raws| - 1])
  }

  /** The keys of a list of families. */
  function FamiliesKeys(families: seq<Family>): set<string> {
    if families == [] then {}
    else
      var last := families[|families| - 1];
      FamiliesKeys(families[..|families| - 1]) + MembersKeys(last, last.encodings)
  }

  /** The registry invariant the artifact relies on: every table entry has
      type "dbcs", a normal key and the file name derived from that key, and
      every alias targets a normal name. */
  predicate WellFormed(reg: Registry) {
    forall k :: k in reg ==>
      match reg[k]
      case Table(kind, filename) => kind == "dbcs" && filename == Filename(k) && IsNormal(k)
      case Alias(target) => IsNormal(target)
  }

  /** A run state whose registry is well formed and whose files all hold a
      full table. */
  predicate Sound(g: Generation) {
    g.Generated? ==>
      WellFormed(g.registry) &&
      forall i :: 0 <= i < |g.files| ==> |g.files[i].contents| == TableSize
  }

  // ---------------------------------------------------------------------
  // Alias insertion

  /** Inserting aliases maps every alias to the key, leaves every other entry
      as it was, and adds exactly the aliases to the key set. */
  lemma {:induction false} AddAliasesEffect(reg: Registry, aliases: seq<string>, key: string)
    ensures var r := AddAliases(reg, aliases, key);
      r.Keys == reg.Keys + (set a | a in aliases) &&
      (forall a :: a in aliases ==> r[a] == Alias(key)) &&
      (forall k :: k in reg && k !in aliases ==> r[k] == reg[k])
  {
    if aliases != [] {
      var init := aliases[..|aliases| - 1];
      AddAliasesEffect(reg, init, key);
      assert aliases == init + [aliases[|aliases| - 1]];
      assert forall a :: a in aliases <==> a in init || a == aliases[|aliases| - 1];
    }
  }

  /** One successful member: its key holds its table entry unless one of its
      own aliases equals the key, each alias now names the key, and every
      other entry is left as it was. The insertion is a plain overwrite: an
      existing entry under the key or an alias is replaced without error. */
  lemma AddEncodingUpdates(reg: Registry, files: seq<TableFile>, family: Family, raw: string,
                           tables: Tables)
    requires MemberBuilds(family, raw, tables)
    ensures var m := MemberOf(family, raw);
      var name := ConverterName(m).value;
      var key := Normalize(name);
      var g := AddEncoding(Generated(reg, files), family, raw, tables);
      g.Generated? &&
      g.files == files + [TableFile(Filename(key), tables(name).value.table)] &&
      g.registry.Keys == reg.Keys + MemberKeys(family, raw) &&
      (key !in AliasesOf(m) ==> g.registry[key] == Table("dbcs", Filename(key))) &&
      (forall a :: a in AliasesOf(m) ==> g.registry[a] == Alias(key)) &&
      (forall k :: k in reg && k != key && k !in AliasesOf(m) ==> g.registry[k] == reg[k])
  {
    var m := MemberOf(family, raw);
    var key := Normalize(ConverterName(m).value);
    AddAliasesEffect(reg[key := Table("dbcs", Filename(key))], AliasesOf(m), key);
  }

  // ---------------------------------------------------------------------
  // Halting

  /** A halted run stays halted through any further members. */
  lemma {:induction false} MembersOfHalted(f: Failure, family: Family, raws: seq<string>, tables: Tables)
    ensures AddMembers(Halted(f), family, raws, tables) == Halted(f)
  {
    if raws != [] {
      MembersOfHalted(f, family, raws[..|raws| - 1], tables);
    }
  }

  /** Once the member loop has halted, the rest of the family changes nothing. */
  lemma {:induction false} MembersHaltPersists(g: Generation, family: Family, raws: seq<string>, n: nat,
                                               tables: Tables)
    requires n <= |raws|
    requires AddMembers(g, family, raws[..n], tables).Halted?
    ensures AddMembers(g, family, raws, tables) == AddMembers(g, family, raws[..n], tables)
    decreases |raws| - n
  {
    if n < |raws| {
      var init := raws[..|raws| - 1];
      assert init[..n] == raws[..n];
      MembersHaltPersists(g, family, init, n, tables);
    } else {
      assert raws[..n] == raws;
    }
  }

  /** Once the family loop has halted, the remaining families change nothing. */
  lemma {:induction false} FamiliesHaltPersists(g: Generation, families: seq<Family>, n: nat,
                                                tables: Tables)
    requires n <= |families|
    requires AddFamilies(g, families[..n], tables).Halted?
    ensures AddFamilies(g, families, tables) == AddFamilies(g, families[..n], tables)
    decreases |families| - n
  {
    if n < |families| {
      var init := families[..|families| - 1];
      assert init[..n] == families[..n];
      FamiliesHaltPersists(g, init, n, tables);
      var last := families[|families| - 1];
      MembersOfHalted(AddFamilies(g, init, tables).failure, last, last.encodings, tables);
    } else {
      assert families[..n] == families;
    }
  }

  // ---------------------------------------------------------------------
  // Properties of a run

  /** With no families the registry is exactly the seed and no file is
      written. */
  lemma GenerateNoFamilies(tables: Tables)
    ensures Generate([], tables) == Generated(map["euccn" := Alias("gb2312")], [])
  {
  }

  /** A run over a single family is that family's member loop from the
      seed. */
  lemma GenerateOneFamily(family: Family, tables: Tables)
    ensures Generate([family], tables) == AddMembers(Generated(Seed, []), family, family.encodings, tables)
  {
    var fams := [family];
    assert fams[..|fams| - 1] == [] && fams[|fams| - 1] == family;
    assert AddFamilies(Generated(Seed, []), fams[..|fams| - 1], tables) == Generated(Seed, []);
  }

  /** One member succeeds exactly when the run has not halted and the
      member builds. */
  lemma AddEncodingSucceedsIff(g: Generation, family: Family, raw: string, tables: Tables)
    ensures AddEncoding(g, family, raw, tables).Generated? <==> g.Generated? && MemberBuilds(family, raw, tables)
  {
  }

  /** The member loop succeeds exactly when it starts from a successful state
      and every member builds. */
  lemma {:induction false} MembersSucceedIff(g: Generation, family: Family, raws: seq<string>,
                                             tables: Tables)
    ensures AddMembers(g, family, raws, tables).Generated? <==>
      g.Generated? && forall ei :: 0 <= ei < |raws| ==> MemberBuilds(family, raws[ei], tables)
  {
    if raws != [] {
      var init := raws[..|raws| - 1];
      var last := raws[|raws| - 1];
      MembersSucceedIff(g, family, init, tables);
      var prev := AddMembers(g, family, init, tables);
      assert AddMembers(g, family, raws, tables) == AddEncoding(prev, family, last, tables);
      AddEncodingSucceedsIff(prev, family, last, tables);
      var all := forall ei :: 0 <= ei < |raws| ==> MemberBuilds(family, raws[ei], tables);
      var most := forall ei :: 0 <= ei < |init| ==> MemberBuilds(family, init[ei], tables);
      assert all <==> most && MemberBuilds(family, last, tables) by {
        assert forall ei :: 0 <= ei < |init| ==> init[ei] == raws[ei];
      }
    }
  }

  /** A run writes the registry exactly when the table of every member of
      every family builds; any failure anywhere halts it. */
  lemma {:induction false} GeneratedIff(families: seq<Family>, tables: Tables)
    ensures Generate(families, tables).Generated? <==> AllBuild(families, tables)
  {
    FamiliesSucceedIff(Generated(Seed, []), families, tables);
  }

  lemma {:induction false} FamiliesSucceedIff(g: Generation, families: seq<Family>, tables: Tables)
    ensures AddFamilies(g, families, tables).Generated? <==> g.Generated? && AllBuild(families, tables)
  {
    if families != [] {
      var init := families[..|families| - 1];
      var last := families[|families| - 1];
      FamiliesSucceedIff(g, init, tables);
      MembersSucceedIff(AddFamilies(g, init, tables), last, last.encodings, tables);
      assert forall fi :: 0 <= fi < |init| ==> init[fi] == families[fi];
    }
  }

  /** The member loop adds exactly the members' keys to the registry. */
  lemma {:induction false} MembersKeySet(g: Generation, family: Family, raws: seq<string>,
                                         tables: Tables)
    requires AddMembers(g, family, raws, tables).Generated?
    ensures g.Generated? &&
      AddMembers(g, family, raws, tables).registry.Keys == g.registry.Keys + MembersKeys(family, raws)
  {
    MembersSucceedIff(g, family, raws, tables);
    if raws != [] {
      var init := raws[..|raws| - 1];
      MembersSucceedIff(g, family, init, tables);
      MembersKeySet(g, family, init, tables);
      var prev := AddMembers(g, family, init, tables);
      AddEncodingUpdates(prev.registry, prev.files, family, raws[|raws| - 1], tables);
    }
  }

  /** The family loop adds exactly the families' keys to the registry. */
  lemma {:induction false} FamiliesKeySet(g: Generation, families: seq<Family>, tables: Tables)
    requires AddFamilies(g, families, tables).Generated?
    ensures g.Generated? &&
      AddFamilies(g, families, tables).registry.Keys == g.registry.Keys + FamiliesKeys(families)
  {
    FamiliesSucceedIff(g, families, tables);
    if families != [] {
      var init := families[..|families| - 1];
      var last := families[|families| - 1];
      FamiliesSucceedIff(g, init, tables);
      FamiliesKeySet(g, init, tables);
      MembersKeySet(AddFamilies(g, init, tables), last, last.encodings, tables);
    }
  }

  /** The written registry has exactly the seed's keys plus, for every
      member, its normalized name and its aliases. */
  lemma GeneratedKeys(families: seq<Family>, tables: Tables)
    requires Generate(families, tables).Generated?
    ensures Generate(families, tables).registry.Keys == {"euccn"} + FamiliesKeys(families)
  {
    FamiliesKeySet(Generated(Seed, []), families, tables);
  }

  /** One member keeps a run sound: the entry it inserts has type "dbcs" and
      its derived file name under a normal key, its aliases target that
      normal key, and its file is a full table. */
  lemma AddEncodingSound(g: Generation, family: Family, raw: string, tables: Tables)
    requires FullTables(tables)
    requires Sound(g)
    ensures Sound(AddEncoding(g, family, raw, tables))
  {
    var g' := AddEncoding(g, family, raw, tables);
    if g'.Generated? {
      var m := MemberOf(family, raw);
      var name := ConverterName(m).value;
      var key := Normalize(name);
      var reg := g.registry;
      var base := reg[key := Table("dbcs", Filename(key))];
      assert WellFormed(base);
      AddAliasesEffect(base, AliasesOf(m), key);
      assert g'.files == g.files + [TableFile(Filename(key), tables(name).value.table)];
    }
  }

  lemma {:induction false} MembersSound(g: Generation, family: Family, raws: seq<string>, tables: Tables)
    requires FullTables(tables)
    requires Sound(g)
    ensures Sound(AddMembers(g, family, raws, tables))
  {
    if raws != [] {
      MembersSound(g, family, raws[..|raws| - 1], tables);
      AddEncodingSound(AddMembers(g, family, raws[..|raws| - 1], tables), family, raws[|raws| - 1], tables);
    }
  }

  lemma {:induction false} FamiliesSound(g: Generation, families: seq<Family>, tables: Tables)
    requires FullTables(tables)
    requires Sound(g)
    ensures Sound(AddFamilies(g, families, tables))
  {
    if families != [] {
      var last := families[|families| - 1];
      FamiliesSound(g, families[..|families| - 1], tables);
      MembersSound(AddFamilies(g, families[..|families| - 1], tables), last, last.encodings, tables);
    }
  }

  /** Every written registry is well formed, and every written table file
      holds a full 65536-byte table. */
  lemma GeneratedSound(families: seq<Family>, iconv: Converters)
    ensures Sound(Generate(families, TablesOf(iconv)))
  {
    assert IsNormal("gb2312");
    assert WellFormed(Seed);
    TablesOfFull(iconv);
    FamiliesSound(Generated(Seed, []), families, TablesOf(iconv));
  }

  /** Every build that succeeds yields a full table. */
  ghost predicate FullTables(tables: Tables) {
    forall name :: Builds(tables, name) ==> |tables(name).value.table| == TableSize
  }

  lemma TablesOfFull(iconv: Converters)
    ensures FullTables(TablesOf(iconv))
  {
    forall name | Builds(TablesOf(iconv), name)
      ensures |TablesOf(iconv)(name).value.table| == TableSize
    {
      BuiltLayout(iconv(name).value, LeadBase, 0);
    }
  }

  // ---------------------------------------------------------------------
  // Examples

  /** A bare member whose table builds adds its table entry and its file. */
  lemma AddBareEncoding(reg: Registry, files: seq<TableFile>, family: Family, raw: string, tables: Tables)
    requires family.convert.None? && Builds(tables, raw)
    ensures var key := Normalize(raw);
      AddEncoding(Generated(reg, files), family, raw, tables) ==
        Generated(reg[key := Table("dbcs", Filename(key))],
                  files + [TableFile(Filename(key), tables(raw).value.table)])
  {
  }

  /** Two families that both declare "big5" do not stop the run: the second
      insertion silently overwrites the first, the registry holds one entry
      for "big5", and the same table file is written twice. */
  lemma DuplicateBig5Overwrites(tables: Tables)
    requires Builds(tables, "big5")
    ensures var t := tables("big5").value.table;
      var file := "./encodings/dbcs_tables/big5.bin.gz";
      Generate([Family(["big5"], None), Family(["big5"], None)], tables) ==
        Generated(map["euccn" := Alias("gb2312"), "big5" := Table("dbcs", file)],
                  [TableFile(file, t), TableFile(file, t)])
  {
    assert IsNormal("big5");
    NormalizeFixedPoint("big5");
    var t := tables("big5").value.table;
    var file := Filename("big5");
    assert file == "./encodings/dbcs_tables/big5.bin.gz";
    var fam := Family(["big5"], None);
    var entry := Table("dbcs", file);
    assert fam.encodings[..0] == [];
    AddBareEncoding(Seed, [], fam, "big5", tables);
    var one := Generated(Seed["big5" := entry], [TableFile(file, t)]);
    assert AddMembers(Generated(Seed, []), fam, fam.encodings, tables) == one;
    assert [fam, fam][..1] == [fam] && [fam][..0] == [];
    assert AddFamilies(Generated(Seed, []), [fam, fam][..1], tables) == one;
    AddBareEncoding(Seed["big5" := entry], [TableFile(file, t)], fam, "big5", tables);
    assert AddMembers(one, fam, fam.encodings, tables) == AddEncoding(one, fam, "big5", tables);
    assert Generate([fam, fam], tables) == AddMembers(one, fam, fam.encodings, tables);
    assert Seed["big5" := entry]["big5" := entry] == map["euccn" := Alias("gb2312"), "big5" := entry];
  }

  /** One more bare member of a family whose earlier members all built. */
  lemma BareStep(g: Generation, family: Family, raws: seq<string>, k: nat, tables: Tables)
    requires family.convert.None? && k < |raws| && Builds(tables, raws[k])
    requires AddMembers(g, family, raws[..k], tables).Generated?
    ensures var prev := AddMembers(g, family, raws[..k], tables);
      var key := Normalize(raws[k]);
      AddMembers(g, family, raws[..k + 1], tables) ==
        Generated(prev.registry[key := Table("dbcs", Filename(key))],
                  prev.files + [TableFile(Filename(key), tables(raws[k]).value.table)])
  {
    assert raws[..k + 1][..k] == raws[..k];
    var prev := AddMembers(g, family, raws[..k], tables);
    AddBareEncoding(prev.registry, prev.files, family, raws[k], tables);
  }

  /** The registry keys of a list of converter names, in order. */
  function KeysOf(raws: seq<string>): seq<string> {
    seq(|raws|, i requires 0 <= i < |raws| => Normalize(raws[i]))
  }

  /** A table entry under each key, inserted in order (later keys win). */
  function TableEntries(reg: Registry, keys: seq<string>): Registry {
    if keys == [] then reg
    else
      var key := keys[|keys| - 1];
      TableEntries(reg, keys[..|keys| - 1])[key := Table("dbcs", Filename(key))]
  }

  /** A family without a conversion step whose tables all build adds one
      table entry per normalized name, in order, and nothing else. */
  lemma {:induction false} BareMembers(g: Generation, family: Family, raws: seq<string>, tables: Tables)
    requires family.convert.None? && g.Generated?
    requires forall i :: 0 <= i < |raws| ==> Builds(tables, raws[i])
    ensures var next := AddMembers(g, family, raws, tables);
      next.Generated? && next.registry == TableEntries(g.registry, KeysOf(raws))
  {
    if raws != [] {
      var n := |raws| - 1;
      BareMembers(g, family, raws[..n], tables);
      assert raws[..n + 1] == raws;
      BareStep(g, family, raws, n, tables);
      assert KeysOf(raws)[..n] == KeysOf(raws[..n]);
    }
  }

  /** The keys of the generator's encoding names. */
  lemma NormalizeKnownNames()
    ensures Normalize("gbk") == "gbk" && Normalize("gb2312") == "gb2312" && Normalize("big5") == "big5"
    ensures Normalize("euc-kr") == "euckr" && Normalize("cp936") == "cp936"
  {
    assert IsNormal("gbk") && IsNormal("gb2312") && IsNormal("big5") && IsNormal("cp936");
    NormalizeFixedPoint("gbk");
    NormalizeFixedPoint("gb2312");
    NormalizeFixedPoint("big5");
    NormalizeFixedPoint("cp936");
    NormalizeEucKr();
  }

  // ---------------------------------------------------------------------
  // The imperative generator

  /** A failure met at member ei of family fi halts the whole run with that
      failure. */
  lemma HaltPropagates(families: seq<Family>, tables: Tables, fi: nat, ei: nat, g: Generation)
    requires fi < |families| && ei < |families[fi].encodings|
    requires AddMembers(AddFamilies(Generated(Seed, []), families[..fi], tables), families[fi],
                        families[fi].encodings[..ei], tables) == g
    requires AddEncoding(g, families[fi], families[fi].encodings[ei], tables).Halted?
    ensures Generate(families, tables) == AddEncoding(g, families[fi], families[fi].encodings[ei], tables)
  {
    var init := Generated(Seed, []);
    var family := families[fi];
    var raws := family.encodings;
    var before := AddFamilies(init, families[..fi], tables);
    assert raws[..ei + 1][..ei] == raws[..ei];
    MembersHaltPersists(before, family, raws, ei + 1, tables);
    assert families[..fi + 1][..fi] == families[..fi];
    assert AddFamilies(init, families[..fi + 1], tables) == AddMembers(before, family, raws, tables);
    FamiliesHaltPersists(init, families, fi + 1, tables);
  }

  /** `encodings[alias] = key` for every alias, in order (lines 103-106). */
  method InsertAliases(reg: Registry, aliases: seq<string>, key: string) returns (result: Registry)
    ensures result == AddAliases(reg, aliases, key)
  {
    result := reg;
    var j := 0;
    while j < |aliases|
      invariant 0 <= j <= |aliases|
      invariant result == AddAliases(reg, aliases[..j], key)
    {
      assert aliases[..j + 1][..j] == aliases[..j];
      result := result[aliases[j] := Alias(key)];
      j := j + 1;
    }
    assert aliases[..j] == aliases;
  }

  /** One member (lines 89-106): convert it, derive its key and file name,
      build its table with the converter of its name, then insert the table
      entry and its aliases. */
  method RegisterEncoding(encodings: Registry, files: seq<TableFile>, family: Family, encoding: string,
                          iconv: Converters) returns (g: Generation)
    ensures g == AddEncoding(Generated(encodings, files), family, encoding, TablesOf(iconv))
  {
    var member := if family.convert.Some? then family.convert.value(encoding) else Plain(encoding);
    if member.Described? && member.name == "" {
      return Halted(NoConverterName(encoding));
    }
    var encodingName := Normalize(member.name);
    var filename := Filename(encodingName);
    var converter := iconv(member.name);
    if converter.None? {
      return Halted(UnknownConverter(member.name));
    }
    var status, buf := WriteTable(converter.value);
    if status.Failed? {
      return Halted(TableFailed(member.name, status.reason));
    }
    var registry := InsertAliases(encodings[encodingName := Table("dbcs", filename)], AliasesOf(member), encodingName);
    g := Generated(registry, files + [TableFile(filename, buf[..])]);
  }

  /** The generator's main loop (lines 81-108): for every member of every
      family, derive the names, build the table, then insert the table entry
      and the aliases into the registry. The first failure ends the run. */
  method GenerateRegistry(families: seq<Family>, iconv: Converters) returns (g: Generation)
    ensures g == Generate(families, TablesOf(iconv))
  {
    ghost var tables := TablesOf(iconv);
    var encodings := Seed;
    var files: seq<TableFile> := [];
    var fi := 0;
    while fi < |families|
      invariant 0 <= fi <= |families|
      invariant AddFamilies(Generated(Seed, []), families[..fi], tables) == Generated(encodings, files)
    {
      var family := families[fi];
      ghost var before := AddFamilies(Generated(Seed, []), families[..fi], tables);
      var ei := 0;
      while ei < |family.encodings|
        invariant 0 <= ei <= |family.encodings|
        invariant AddMembers(before, family, family.encodings[..ei], tables) == Generated(encodings, files)
      {
        ghost var here := Generated(encodings, files);
        assert family.encodings[..ei + 1][..ei] == family.encodings[..ei];
        var next := RegisterEncoding(encodings, files, family, family.encodings[ei], iconv);
        if next.Halted? {
          HaltPropagates(families, tables, fi, ei, here);
          return next;
        }
        encodings, files := next.registry, next.files;
        ei := ei + 1;
      }
      assert family.encodings[..ei] == family.encodings;
      assert families[..fi + 1][..fi] == families[..fi];
      fi := fi + 1;
    }
    assert families[..fi] == families;
    g := Generated(encodings, files);
  }
}
