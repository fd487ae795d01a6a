/** Encoding names and table file names (generation/generate-dbcs.js,
    lines 92-95): the registry key of an encoding is its converter name with
    every '-' and '_' removed and then lower-cased, and its table lives at
    "./encodings/dbcs_tables/<key>.bin.gz". Lower-casing is modelled for
    ASCII letters only. */
module Naming {

  /** The directory and suffix of every table file. */
  const TablesDir := "./encodings/dbcs_tables/"
  const TableSuffix := ".bin.gz"

  predicate IsSeparator(c: char) {
    c == '-' || c == '_'
  }

  predicate IsUpperAscii(c: char) {
    'A' <= c <= 'Z'
  }

  /** A name in normal form: no separator, no upper-case ASCII letter. */
  predicate IsNormal(s: string) {
    forall i :: 0 <= i < |s| ==> !IsSeparator(s[i]) && !IsUpperAscii(s[i])
  }

  /** `replace(/[-_]/g, "")`: the name with every separator removed and
      every other character kept, in order. */
  function StripSeparators(s: string): string {
    if s == [] then []
    else (if IsSeparator(s[0]) then [] else [s[0]]) + StripSeparators(s[1..])
  }

  /** Stripping leaves no separator, never lengthens the name, and leaves a
      name without separators as it is. */
  lemma {:induction false} StripFacts(s: string)
    ensures var r := StripSeparators(s);
      |r| <= |s| &&
      (forall i :: 0 <= i < |r| ==> !IsSeparator(r[i])) &&
      ((forall i :: 0 <= i < |s| ==> !IsSeparator(s[i])) ==> r == s)
  {
    if s != [] {
      StripFacts(s[1..]);
      var r := StripSeparators(s);
      var head := if IsSeparator(s[0]) then [] else [s[0]];
      assert r == head + StripSeparators(s[1..]);
      if forall i :: 0 <= i < |s| ==> !IsSeparator(s[i]) {
        assert forall i :: 0 <= i < |s[1..]| ==> !IsSeparator(s[1..][i]) by {
          forall i | 0 <= i < |s[1..]| ensures !IsSeparator(s[1..][i]) {
            assert s[1..][i] == s[i + 1];
          }
        }
        assert s == [s[0]] + s[1..];
      }
    }
  }

  /** ASCII `toLowerCase` of one character. */
  function LowerAscii(c: char): char {
    if IsUpperAscii(c) then (c as int + ('a' as int - 'A' as int)) as char else c
  }

  /** ASCII `toLowerCase` of a string. */
  function ToLowerAscii(s: string): string {
    seq(|s|, i requires 0 <= i < |s| => LowerAscii(s[i]))
  }

  /** The registry key derived from a converter name (line 93). Its result
      is always in normal form. */
  function Normalize(name: string): (key: string)
    ensures IsNormal(key)
    ensures |key| <= |name|
  {
    StripFacts(name);
    ToLowerAscii(StripSeparators(name))
  }

  /** The table file of a registry key (line 95). */
  function Filename(key: string): string {
    TablesDir + key + TableSuffix
  }

  /** A table file name is the tables directory, then the key, then the
      suffix, so the key can be read back from it. */
  lemma FilenameParts(key: string)
    ensures var f := Filename(key);
      |f| == |TablesDir| + |key| + |TableSuffix| &&
      f[..|TablesDir|] == TablesDir &&
      f[|TablesDir|..|f| - |TableSuffix|] == key &&
      f[|f| - |TableSuffix|..] == TableSuffix
  {
  }

  /** Lower-casing changes no character that is not an upper-case letter,
      and keeps separators absent. */
  lemma LowerAsciiFacts(c: char)
    ensures !IsUpperAscii(LowerAscii(c))
    ensures IsSeparator(LowerAscii(c)) <==> IsSeparator(c)
    ensures !IsUpperAscii(c) ==> LowerAscii(c) == c
  {
  }

  /** The normal names are exactly the fixed points of Normalize: the keys
      it can produce are the keys it leaves alone. */
  lemma NormalizeFixedPoint(s: string)
    ensures IsNormal(s) <==> Normalize(s) == s
  {
    if IsNormal(s) {
      StripFacts(s);
      assert StripSeparators(s) == s;
      assert ToLowerAscii(s) == s;
    }
  }

  /** Normalizing twice is normalizing once. */
  lemma NormalizeIdempotent(s: string)
    ensures Normalize(Normalize(s)) == Normalize(s)
  {
    NormalizeFixedPoint(Normalize(s));
  }

  /** Inserting a separator anywhere does not change the key. */
  lemma {:induction false} NormalizeIgnoresSeparator(s: string, t: string, sep: char)
    requires IsSeparator(sep)
    ensures Normalize(s + [sep] + t) == Normalize(s + t)
  {
    StripIgnoresSeparator(s, t, sep);
  }

  lemma {:induction false} StripIgnoresSeparator(s: string, t: string, sep: char)
    requires IsSeparator(sep)
    ensures StripSeparators(s + [sep] + t) == StripSeparators(s + t)
  {
    var u := s + [sep] + t;
    if s == [] {
      assert u == [sep] + t && u[0] == sep && u[1..] == t;
      assert s + t == t;
    } else {
      StripIgnoresSeparator(s[1..], t, sep);
      assert u[0] == s[0] && u[1..] == s[1..] + [sep] + t;
      assert (s + t)[0] == s[0] && (s + t)[1..] == s[1..] + t;
    }
  }

  /** Stripping keeps exactly the characters that are not separators. */
  lemma {:induction false} StripKeeps(s: string, c: char)
    ensures c in StripSeparators(s) <==> c in s && !IsSeparator(c)
  {
    if s != [] {
      StripKeeps(s[1..], c);
      assert c in s <==> c == s[0] || c in s[1..];
    }
  }

  /** The key of the converter name "euc-kr" is "euckr". */
  lemma NormalizeEucKr()
    ensures Normalize("euc-kr") == "euckr"
  {
    assert StripSeparators("euc-kr") == "euckr";
    assert ToLowerAscii("euckr") == "euckr";
  }

  /** Spelling the name with an underscore and in capitals gives the same key. */
  lemma NormalizeEucKrVariant()
    ensures Normalize("EUC_KR") == "euckr"
  {
    assert StripSeparators("EUC_KR") == "EUCKR";
    assert ToLowerAscii("EUCKR") == "euckr";
  }

  /** Different keys have different table files. */
  lemma FilenameInjective(k1: string, k2: string)
    requires Filename(k1) == Filename(k2)
    ensures k1 == k2
  {
    FilenameParts(k1);
    FilenameParts(k2);
  }
}
