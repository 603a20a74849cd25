/** The areas a net income applies to: how a list of them is normalised, stored and read. */
module Areas {
  import opened Text

  datatype Area = Area(provinceCode: string, provinceName: string, regencyCode: string, regencyName: string)

  /** A stored value: nothing, areas, a list of names as older rows have it, or neither. */
  datatype Json = Missing | Areas(areas: seq<Area>) | Names(names: seq<string>) | Malformed

  function TrimArea(a: Area): Area {
    Area(Trim(a.provinceCode), Trim(a.provinceName), Trim(a.regencyCode), Trim(a.regencyName))
  }

  /** Codes stand in for missing names. */
  function WithNames(a: Area): Area {
    Area(a.provinceCode, if a.provinceName == "" then a.provinceCode else a.provinceName,
         a.regencyCode, if a.regencyName == "" then a.regencyCode else a.regencyName)
  }

  function Cleaned(a: Area): Area {
    WithNames(TrimArea(a))
  }

  /** An area needs both codes, or at least some name or code of the regency. */
  predicate Usable(a: Area) {
    a != Area("", "", "", "") && ((a.provinceCode != "" && a.regencyCode != "") || a.regencyName != "")
  }

  function Joined(a: Area): string {
    Lower(a.provinceCode + "|" + a.provinceName + "|" + a.regencyCode + "|" + a.regencyName)
  }

  function Joins(areas: seq<Area>): set<string> {
    set a | a in areas :: Joined(a)
  }

  function AddNew(areas: seq<Area>, a: Area): seq<Area> {
    if Usable(a) && Joined(a) !in Joins(areas) then areas + [a] else areas
  }

  /** The usable areas cleaned, each text once, in the order of first appearance. */
  function Normalized(areas: seq<Area>): seq<Area> {
    if areas == [] then [] else AddNew(Normalized(areas[..|areas| - 1]), Cleaned(areas[|areas| - 1]))
  }

  // ---------------------------------------------------------------- what normalising gives

  ghost predicate Tidy(a: Area) {
    Cleaned(a) == a && Usable(a)
  }

  ghost predicate AllTidy(areas: seq<Area>) {
    forall a | a in areas :: Tidy(a)
  }

  ghost predicate AllDistinct(areas: seq<Area>) {
    forall i, j | 0 <= i < j < |areas| :: Joined(areas[i]) != Joined(areas[j])
  }

  lemma LastApart<T>(s: seq<T>)
    requires s != []
    ensures s == s[..|s| - 1] + [s[|s| - 1]]
  {
  }

  lemma CleanedIsClean(a: Area)
    ensures Cleaned(Cleaned(a)) == Cleaned(a)
  {
    TrimIdempotent(a.provinceCode);
    TrimIdempotent(a.provinceName);
    TrimIdempotent(a.regencyCode);
    TrimIdempotent(a.regencyName);
  }

  lemma {:induction false} NormalizedIsTidy(areas: seq<Area>)
    ensures AllTidy(Normalized(areas)) && AllDistinct(Normalized(areas))
  {
    if areas != [] {
      NormalizedIsTidy(areas[..|areas| - 1]);
      CleanedIsClean(areas[|areas| - 1]);
      AddNewTidy(Normalized(areas[..|areas| - 1]), Cleaned(areas[|areas| - 1]));
    }
  }

  lemma AddNewTidy(areas: seq<Area>, a: Area)
    requires AllTidy(areas) && AllDistinct(areas) && Cleaned(a) == a
    ensures AllTidy(AddNew(areas, a)) && AllDistinct(AddNew(areas, a))
  {
  }

  lemma AddTidy(areas: seq<Area>, a: Area)
    requires Usable(a) && forall i | 0 <= i < |areas| :: Joined(areas[i]) != Joined(a)
    ensures AddNew(areas, a) == areas + [a]
  {
  }

  lemma {:induction false} TidyIsNormalized(areas: seq<Area>)
    requires AllTidy(areas) && AllDistinct(areas)
    ensures Normalized(areas) == areas
  {
    if areas != [] {
      var rest, a := areas[..|areas| - 1], areas[|areas| - 1];
      TidyIsNormalized(rest);
      assert Tidy(a) by { assert a in areas; }
      AddTidy(rest, a);
      LastApart(areas);
    }
  }

  /** A list is its own normal form exactly when all its areas are tidy and no two have the same text. */
  lemma NormalFormIff(areas: seq<Area>)
    ensures Normalized(areas) == areas <==> AllTidy(areas) && AllDistinct(areas)
  {
    if Normalized(areas) == areas {
      NormalizedIsTidy(areas);
    } else if AllTidy(areas) && AllDistinct(areas) {
      TidyIsNormalized(areas);
    }
  }

  lemma NormalizedIdempotent(areas: seq<Area>)
    ensures Normalized(Normalized(areas)) == Normalized(areas)
  {
    NormalizedIsTidy(areas);
    TidyIsNormalized(Normalized(areas));
  }

  /** An area as it is kept: trimmed, with codes in place of missing names. */
  predicate KeptAs(a: Area, b: Area) {
    b.provinceCode == Trim(a.provinceCode) && b.regencyCode == Trim(a.regencyCode)
    && b.provinceName == Trim(if Blank(a.provinceName) then a.provinceCode else a.provinceName)
    && b.regencyName == Trim(if Blank(a.regencyName) then a.regencyCode else a.regencyName)
  }

  /** An area is worth keeping exactly when its regency has a code or a name. */
  lemma UsableIff(a: Area)
    ensures KeptAs(a, Cleaned(a))
    ensures Usable(Cleaned(a)) <==> !Blank(a.regencyCode) || !Blank(a.regencyName)
  {
  }

  /** Nothing is in a normal form but areas of the list, as they are kept. */
  lemma {:induction false} NormalizedFrom(areas: seq<Area>, b: Area)
    requires b in Normalized(areas)
    ensures exists a | a in areas :: KeptAs(a, b) && (!Blank(a.regencyCode) || !Blank(a.regencyName))
  {
    var init, last := areas[..|areas| - 1], areas[|areas| - 1];
    LastApart(areas);
    if b in Normalized(init) {
      NormalizedFrom(init, b);
      var a :| a in init && KeptAs(a, b) && (!Blank(a.regencyCode) || !Blank(a.regencyName));
      assert a in areas;
    } else {
      UsableIff(last);
      assert last in areas;
    }
  }

  /** Areas that differ in the case of letters only have one text, so the first of them stands for all. */
  lemma CaseMakesNoText(a: Area, b: Area)
    requires Lower(a.provinceCode) == Lower(b.provinceCode) && Lower(a.provinceName) == Lower(b.provinceName)
    requires Lower(a.regencyCode) == Lower(b.regencyCode) && Lower(a.regencyName) == Lower(b.regencyName)
    ensures Joined(a) == Joined(b)
  {
    JoinedIs(a);
    JoinedIs(b);
  }

  lemma JoinedIs(a: Area)
    ensures Joined(a) == Lower(a.provinceCode) + "|" + Lower(a.provinceName) + "|" + Lower(a.regencyCode) + "|" + Lower(a.regencyName)
  {
    LowerConcat(a.provinceCode, "|");
    LowerConcat(a.provinceCode + "|", a.provinceName);
    LowerConcat(a.provinceCode + "|" + a.provinceName, "|");
    LowerConcat(a.provinceCode + "|" + a.provinceName + "|", a.regencyCode);
    LowerConcat(a.provinceCode + "|" + a.provinceName + "|" + a.regencyCode, "|");
    LowerConcat(a.provinceCode + "|" + a.provinceName + "|" + a.regencyCode + "|", a.regencyName);
    assert Lower("|") == "|";
  }

  ghost function UsableTexts(areas: seq<Area>): set<string> {
    set a | a in areas && Usable(Cleaned(a)) :: Joined(Cleaned(a))
  }

  lemma TextsAppend(areas: seq<Area>, a: Area)
    ensures UsableTexts(areas + [a]) == UsableTexts(areas) + if Usable(Cleaned(a)) then {Joined(Cleaned(a))} else {}
  {
    assert forall x | x in areas + [a] :: x in areas || x == a;
    assert a in areas + [a] && forall x | x in areas :: x in areas + [a];
  }

  lemma AddNewTexts(areas: seq<Area>, a: Area)
    ensures Joins(AddNew(areas, a)) == Joins(areas) + if Usable(a) then {Joined(a)} else {}
  {
    JoinsAppend(areas, a);
  }

  /** Normalising loses no text and adds none. */
  lemma {:induction false} NormalizedKeepsTexts(areas: seq<Area>)
    ensures Joins(Normalized(areas)) == UsableTexts(areas)
  {
    if areas != [] {
      var rest, a := areas[..|areas| - 1], areas[|areas| - 1];
      NormalizedKeepsTexts(rest);
      LastApart(areas);
      TextsAppend(rest, a);
      AddNewTexts(Normalized(rest), Cleaned(a));
    }
  }

  lemma JoinsAppend(areas: seq<Area>, a: Area)
    ensures Joins(areas + [a]) == Joins(areas) + {Joined(a)}
  {
    assert forall x | x in areas + [a] :: x in areas || x == a;
    assert a in areas + [a] && forall x | x in areas :: x in areas + [a];
  }

  // ---------------------------------------------------------------- the loops

  method NormalizeAreaNetIncomeItems(areas: seq<Area>) returns (out: seq<Area>)
    ensures out == Normalized(areas)
  {
    out := [];
    var seen: set<string> := {};
    var i := 0;
    while i < |areas|
      invariant i <= |areas| && out == Normalized(areas[..i]) && seen == Joins(out)
    {
      assert areas[..i + 1][..i] == areas[..i];
      out, seen := Consider(areas[i], out, seen);
      i := i + 1;
    }
    assert areas[..i] == areas;
  }

  /** One turn of the loop: the area is dropped as empty, as too vague or as known, or kept. */
  method Consider(area: Area, out: seq<Area>, seen: set<string>) returns (out': seq<Area>, seen': set<string>)
    requires seen == Joins(out)
    ensures out' == AddNew(out, Cleaned(area)) && seen' == Joins(out')
  {
    var item := TrimArea(area);
    if item == Area("", "", "", "") { return out, seen; }
    if item.provinceName == "" {
      item := item.(provinceName := item.provinceCode);
    }
    if item.regencyName == "" {
      item := item.(regencyName := item.regencyCode);
    }
    if item.provinceCode == "" || item.regencyCode == "" {
      if item.regencyName == "" { return out, seen; }
    }
    var key := Joined(item);
    if key in seen { return out, seen; }
    JoinsAppend(out, item);
    return out + [item], seen + {key};
  }

  function Trimmed(areas: seq<Area>): seq<Area> {
    seq(|areas|, i requires 0 <= i < |areas| => TrimArea(areas[i]))
  }

  lemma {:induction false} TrimmedNormalizesTheSame(areas: seq<Area>)
    ensures Normalized(Trimmed(areas)) == Normalized(areas)
  {
    if areas != [] {
      var rest, a := areas[..|areas| - 1], areas[|areas| - 1];
      TrimmedNormalizesTheSame(rest);
      assert Trimmed(areas)[..|areas| - 1] == Trimmed(rest);
      TrimIdempotent(a.provinceCode);
      TrimIdempotent(a.provinceName);
      TrimIdempotent(a.regencyCode);
      TrimIdempotent(a.regencyName);
    }
  }

  method NormalizeAreaNetIncome(areas: seq<Area>) returns (out: seq<Area>)
    ensures out == Normalized(areas)
  {
    var normalized: seq<Area> := [];
    var i := 0;
    while i < |areas|
      invariant i <= |areas| && normalized == Trimmed(areas[..i])
    {
      assert areas[..i + 1][..i] == areas[..i];
      normalized := normalized + [TrimArea(areas[i])];
      i := i + 1;
    }
    assert areas[..i] == areas;
    TrimmedNormalizesTheSame(areas);
    out := NormalizeAreaNetIncomeItems(normalized);
  }

  // ---------------------------------------------------------------- storing and reading

  function Encoded(areas: seq<Area>): Json {
    Areas(Normalized(areas))
  }

  function NamedAreas(names: seq<string>): seq<Area> {
    if names == [] then []
    else
      var rest, val := NamedAreas(names[..|names| - 1]), Trim(names[|names| - 1]);
      if val == "" then rest else rest + [Area("", "", val, val)]
  }

  function Decoded(raw: Json): seq<Area> {
    match raw
    case Areas(areas) => Normalized(areas)
    case Names(names) => Normalized(NamedAreas(names))
    case _ => []
  }

  lemma {:induction false} NamedAreasIff(names: seq<string>, a: Area)
    ensures a in NamedAreas(names) <==> exists n | n in names :: !Blank(n) && a == Area("", "", Trim(n), Trim(n))
  {
    if names != [] {
      NamedAreasIff(names[..|names| - 1], a);
      LastApart(names);
    }
  }

  /** Of an older list of names each one that is not blank is read as a regency of that name and code, and nothing else is. */
  lemma NamesAreRead(names: seq<string>, b: Area)
    requires b in Decoded(Names(names))
    ensures exists n | n in names :: !Blank(n) && b == Area("", "", Trim(n), Trim(n))
  {
    NormalizedFrom(NamedAreas(names), b);
    var a :| a in NamedAreas(names) && KeptAs(a, b);
    NamedAreasIff(names, a);
    var n :| n in names && !Blank(n) && a == Area("", "", Trim(n), Trim(n));
    TrimIdempotent(n);
    assert Blank("");
  }

  lemma EachNameIsRead(names: seq<string>, n: string)
    requires n in names && !Blank(n)
    ensures Joined(Area("", "", Trim(n), Trim(n))) in Joins(Decoded(Names(names)))
  {
    var a := Area("", "", Trim(n), Trim(n));
    NamedAreasIff(names, a);
    TrimIdempotent(n);
    assert Blank("") && Cleaned(a) == a;
    NormalizedKeepsTexts(NamedAreas(names));
  }

  /** What is read back is the normal form of what was stored, and storing that again changes nothing. */
  lemma DecodeAfterEncode(areas: seq<Area>)
    ensures Decoded(Encoded(areas)) == Normalized(areas)
    ensures Encoded(Decoded(Encoded(areas))) == Encoded(areas)
  {
    NormalizedIdempotent(areas);
  }

  /** Whatever is stored, what is read is in normal form. */
  lemma DecodedIsNormal(raw: Json)
    ensures Normalized(Decoded(raw)) == Decoded(raw)
  {
    match raw
    case Areas(areas) => NormalizedIdempotent(areas);
    case Names(names) => NormalizedIdempotent(NamedAreas(names));
    case _ =>
  }

  method EncodeAreaNetIncome(areas: seq<Area>) returns (raw: Json)
    ensures raw == Encoded(areas)
  {
    var clean := NormalizeAreaNetIncomeItems(areas);
    if |clean| == 0 {
      raw := Areas([]);
    } else {
      raw := Areas(clean);
    }
  }

  method DecodeAreaNetIncome(raw: Json) returns (areas: seq<Area>)
    ensures areas == Decoded(raw)
  {
    match raw {
      case Areas(listed) =>
        areas := NormalizeAreaNetIncomeItems(listed);
      case Names(legacy) =>
        var mapped: seq<Area> := [];
        var i := 0;
        while i < |legacy|
          invariant i <= |legacy| && mapped == NamedAreas(legacy[..i])
        {
          assert legacy[..i + 1][..i] == legacy[..i];
          var val := Trim(legacy[i]);
          if val != "" {
            mapped := mapped + [Area("", "", val, val)];
          }
          i := i + 1;
        }
        assert legacy[..i] == legacy;
        areas := NormalizeAreaNetIncomeItems(mapped);
      case _ =>
        areas := [];
    }
  }
}
