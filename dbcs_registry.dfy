/** The registry artifact encodings/dbcs.js: the map the generator wrote
    for the encoding list [gbk, gb2312, big5, euc-kr], and the one-hop
    lookup it is designed for. */
module DbcsRegistry {
  import opened Converter
  import opened Naming
  import opened Generator

  /** The checked-in registry (encodings/dbcs.js, lines 1-19). */
  const Artifact: map<string, Value> := map[
    "euccn" := Alias("gb2312"),
    "gbk" := Table("dbcs", "./encodings/dbcs_tables/gbk.bin.gz"),
    "gb2312" := Table("dbcs", "./encodings/dbcs_tables/gb2312.bin.gz"),
    "big5" := Table("dbcs", "./encodings/dbcs_tables/big5.bin.gz"),
    "euckr" := Table("dbcs", "./encodings/dbcs_tables/euckr.bin.gz")]

  /** The result of a lookup: the key of the table entry reached and its
      table file, or nothing. */
  datatype Resolution = Unrecognized | Resolved(key: string, filename: string)

  /** One-hop lookup of a key: a table entry is returned as it is; an alias
      is followed once, and must then reach a table entry. */
  function Resolve(reg: map<string, Value>, key: string): Resolution {
    if key !in reg then Unrecognized
    else
      match reg[key]
      case Table(_, filename) => Resolved(key, filename)
      case Alias(target) =>
        if target in reg && reg[target].Table? then Resolved(target, reg[target].filename)
        else Unrecognized
  }

  /** Every alias of the registry names a key whose value is a table entry:
      no alias is dangling and none points to another alias. */
  predicate OneHop(reg: map<string, Value>) {
    forall k :: k in reg && reg[k].Alias? ==> reg[k].target in reg && reg[reg[k].target].Table?
  }

  /** In a one-hop registry every key resolves, to a key holding a table
      entry with the returned file, and resolving that key again gives the
      same answer. */
  lemma ResolveOneHop(reg: map<string, Value>, k: string)
    requires OneHop(reg)
    requires k in reg
    ensures var r := Resolve(reg, k);
      r.Resolved? && r.key in reg && reg[r.key] == Table(reg[r.key].kind, r.filename) &&
      Resolve(reg, r.key) == r
    ensures reg[k].Table? ==> Resolve(reg, k).key == k
    ensures reg[k].Alias? ==> Resolve(reg, k).key == reg[k].target
  {
  }

  /** A key outside the registry is unrecognized. */
  lemma ResolveUnknown(reg: map<string, Value>, k: string)
    requires k !in reg
    ensures Resolve(reg, k) == Unrecognized
  {
  }

  /** The key set is exactly euccn, gbk, gb2312, big5 and euckr. */
  lemma RegistryKeys()
    ensures Artifact.Keys == {"euccn", "gbk", "gb2312", "big5", "euckr"}
  {
  }

  /** Every alias of the artifact targets a table entry. */
  lemma RegistryOneHop()
    ensures OneHop(Artifact)
  {
    RegistryKeys();
  }

  /** "euccn" is an alias of "gb2312", which holds a table entry, so
      resolving "euccn" takes one hop and reaches the gb2312 table. */
  lemma EuccnResolvesToGb2312()
    ensures Artifact["euccn"] == Alias("gb2312") && Artifact["gb2312"].Table?
    ensures Resolve(Artifact, "euccn") == Resolve(Artifact, "gb2312") ==
      Resolved("gb2312", "./encodings/dbcs_tables/gb2312.bin.gz")
  {
  }

  /** Every table entry has type "dbcs" and the file name the generator
      derives from its key, and every key and alias target is in normal
      form. */
  lemma RegistryWellFormed()
    ensures WellFormed(Artifact)
  {
    forall k | k in Artifact
      ensures match Artifact[k]
        case Table(kind, filename) => kind == "dbcs" && filename == Filename(k) && IsNormal(k)
        case Alias(target) => IsNormal(target)
    {
      RegistryEntry(k);
    }
  }

  /** One entry of the artifact, checked key by key. */
  lemma RegistryEntry(k: string)
    requires k in Artifact
    ensures match Artifact[k]
      case Table(kind, filename) => kind == "dbcs" && filename == Filename(k) && IsNormal(k)
      case Alias(target) => IsNormal(target)
  {
    RegistryKeys();
    KnownFilenames();
    if k == "euccn" {
      assert IsNormal("gb2312");
    } else if k == "gbk" {
      assert IsNormal("gbk");
    } else if k == "gb2312" {
      assert IsNormal("gb2312");
    } else if k == "big5" {
      assert IsNormal("big5");
    } else {
      assert IsNormal("euckr");
    }
  }

  /** Every key of the artifact is a fixed point of the normalization: the
      generator's key derivation leaves it unchanged. */
  lemma RegistryKeysNormal()
    ensures forall k :: k in Artifact ==> Normalize(k) == k
  {
    forall k | k in Artifact
      ensures Normalize(k) == k
    {
      RegistryKeys();
      assert IsNormal(k) by {
        if k == "euccn" {
          assert IsNormal("euccn");
        } else {
          RegistryEntry(k);
        }
      }
      NormalizeFixedPoint(k);
    }
  }

  /** The spelling "EUC_KR" normalizes to a key of the artifact, which
      resolves to the euckr table. */
  lemma LookupEucKrSpelling()
    ensures Resolve(Artifact, Normalize("EUC_KR")) == Resolved("euckr", "./encodings/dbcs_tables/euckr.bin.gz")
  {
    NormalizeEucKrVariant();
  }

  /** The artifact is what the generator writes for the family list
      [gbk, gb2312, big5, euc-kr] with no conversion and no aliases, when
      every one of those tables builds. */
  lemma ArtifactIsGenerated(tables: Tables)
    requires Builds(tables, "gbk") && Builds(tables, "gb2312") && Builds(tables, "big5")
    requires Builds(tables, "euc-kr")
    ensures var g := Generate([Family(["gbk", "gb2312", "big5", "euc-kr"], None)], tables);
      g.Generated? && g.registry == Artifact
  {
    var fam := Family(["gbk", "gb2312", "big5", "euc-kr"], None);
    ArtifactMembers(tables);
    ArtifactChainIsRegistry();
    GenerateOneFamily(fam, tables);
  }

  /** The artifact's entries as the generator inserts them, one per member. */
  function ArtifactChain(): Registry {
    Seed["gbk" := Table("dbcs", Filename("gbk"))]["gb2312" := Table("dbcs", Filename("gb2312"))]
        ["big5" := Table("dbcs", Filename("big5"))]["euckr" := Table("dbcs", Filename("euckr"))]
  }

  /** Folding the four bare members into the seed inserts one table entry
      per normalized name, in order. */
  lemma ArtifactMembers(tables: Tables)
    requires Builds(tables, "gbk") && Builds(tables, "gb2312") && Builds(tables, "big5")
    requires Builds(tables, "euc-kr")
    ensures var g := AddMembers(Generated(Seed, []), Family(["gbk", "gb2312", "big5", "euc-kr"], None),
                                ["gbk", "gb2312", "big5", "euc-kr"], tables);
      g.Generated? && g.registry == ArtifactChain()
  {
    var fam := Family(["gbk", "gb2312", "big5", "euc-kr"], None);
    var raws := fam.encodings;
    BareMembers(Generated(Seed, []), fam, raws, tables);
    ArtifactKeys();
    ArtifactEntries();
  }

  /** The keys of the four converter names. */
  lemma ArtifactKeys()
    ensures KeysOf(["gbk", "gb2312", "big5", "euc-kr"]) == ["gbk", "gb2312", "big5", "euckr"]
  {
    NormalizeKnownNames();
    var raws := ["gbk", "gb2312", "big5", "euc-kr"];
    var keys := KeysOf(raws);
    assert raws[0] == "gbk" && raws[1] == "gb2312" && raws[2] == "big5" && raws[3] == "euc-kr";
    assert keys == [keys[0], keys[1], keys[2], keys[3]];
  }

  /** Inserting the four keys into the seed gives the artifact's entries. */
  lemma ArtifactEntries()
    ensures TableEntries(Seed, ["gbk", "gb2312", "big5", "euckr"]) == ArtifactChain()
  {
    var k1 := ["gbk"];
    var k2 := k1 + ["gb2312"];
    var k3 := k2 + ["big5"];
    var k4 := k3 + ["euckr"];
    assert k1[..0] == [] && k2[..1] == k1 && k3[..2] == k2 && k4[..3] == k3;
    var r1 := Seed["gbk" := Table("dbcs", Filename("gbk"))];
    var r2 := r1["gb2312" := Table("dbcs", Filename("gb2312"))];
    var r3 := r2["big5" := Table("dbcs", Filename("big5"))];
    assert TableEntries(Seed, k1) == r1;
    assert TableEntries(Seed, k2) == r2;
    assert TableEntries(Seed, k3) == r3;
    assert k4 == ["gbk", "gb2312", "big5", "euckr"];
  }

  /** The inserted entries are exactly the artifact's. */
  lemma ArtifactChainIsRegistry()
    ensures ArtifactChain() == Artifact
  {
    KnownFilenames();
  }

  /** The family list as it stands now also names "cp936", so a run over it
      writes the artifact's entries plus a table entry for cp936, a key the
      artifact lacks. */
  lemma CurrentListAddsCp936(tables: Tables)
    requires Builds(tables, "gbk") && Builds(tables, "gb2312") && Builds(tables, "big5")
    requires Builds(tables, "euc-kr") && Builds(tables, "cp936")
    ensures "cp936" !in Artifact
    ensures var g := Generate(EncodingFamilies, tables);
      g.Generated? && g.registry == Artifact["cp936" := Table("dbcs", "./encodings/dbcs_tables/cp936.bin.gz")]
  {
    var raws := ["gbk", "gb2312", "big5", "euc-kr", "cp936"];
    var fam := Family(raws, None);
    assert EncodingFamilies == [fam];
    GenerateOneFamily(fam, tables);
    forall i | 0 <= i < |raws|
      ensures Builds(tables, raws[i])
    {
      if i == 0 {
        assert raws[i] == "gbk";
      } else if i == 1 {
        assert raws[i] == "gb2312";
      } else if i == 2 {
        assert raws[i] == "big5";
      } else if i == 3 {
        assert raws[i] == "euc-kr";
      } else {
        assert raws[i] == "cp936";
      }
    }
    BareMembers(Generated(Seed, []), fam, raws, tables);
    CurrentKeys();
    CurrentEntries();
    Cp936Absent();
  }

  /** "cp936" is not a key of the artifact. */
  lemma Cp936Absent()
    ensures "cp936" !in Artifact
  {
    RegistryKeys();
    assert "cp936"[0] == 'c' && |"cp936"| == 5;
  }

  /** Inserting the five keys into the seed gives the artifact's entries
      and a cp936 entry. */
  lemma CurrentEntries()
    ensures TableEntries(Seed, ["gbk", "gb2312", "big5", "euckr", "cp936"]) ==
      Artifact["cp936" := Table("dbcs", "./encodings/dbcs_tables/cp936.bin.gz")]
  {
    var k4 := ["gbk", "gb2312", "big5", "euckr"];
    var k5 := k4 + ["cp936"];
    assert k5[..4] == k4 && k5 == ["gbk", "gb2312", "big5", "euckr", "cp936"];
    assert TableEntries(Seed, k5) == TableEntries(Seed, k4)["cp936" := Table("dbcs", Filename("cp936"))];
    ArtifactEntries();
    ArtifactChainIsRegistry();
    assert Filename("cp936") == "./encodings/dbcs_tables/cp936.bin.gz";
  }

  /** The keys of the five converter names of the current list. */
  lemma CurrentKeys()
    ensures KeysOf(["gbk", "gb2312", "big5", "euc-kr", "cp936"]) == ["gbk", "gb2312", "big5", "euckr", "cp936"]
  {
    NormalizeKnownNames();
    var raws := ["gbk", "gb2312", "big5", "euc-kr", "cp936"];
    var keys := KeysOf(raws);
    assert raws[0] == "gbk" && raws[1] == "gb2312" && raws[2] == "big5" && raws[3] == "euc-kr";
    assert raws[4] == "cp936";
    assert keys == [keys[0], keys[1], keys[2], keys[3], keys[4]];
  }

  /** The file names of the four tables. */
  lemma KnownFilenames()
    ensures Filename("gbk") == "./encodings/dbcs_tables/gbk.bin.gz"
    ensures Filename("gb2312") == "./encodings/dbcs_tables/gb2312.bin.gz"
    ensures Filename("big5") == "./encodings/dbcs_tables/big5.bin.gz"
    ensures Filename("euckr") == "./encodings/dbcs_tables/euckr.bin.gz"
  {
  }
}
