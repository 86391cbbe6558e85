/**
 * The skill data: categories of named skills with a duration, and
 * `getAllSkillNames`, which lists every skill name category by category.
 */
module Skills {
  import Strings

  datatype Skill = Skill(name: string, duration: string)

  datatype SkillCategory = SkillCategory(title: string, dotColor: string, skills: seq<Skill>)

  const SkillCategories: seq<SkillCategory> := [
    SkillCategory("バックエンド", "bg-blue-500", [
      Skill("C#", "3年"),
      Skill("VB.NET", "3年"),
      Skill("ASP.NET", "2年4ヶ月"),
      Skill("ASP.NET Core MVC", "5ヶ月"),
      Skill("VBScript", "2年4ヶ月")]),
    SkillCategory("フロントエンド", "bg-green-500", [
      Skill("HTML/CSS", "3年"),
      Skill("JavaScript", "3年"),
      Skill("jQuery", "2年4ヶ月"),
      Skill("TypeScript", "学習中"),
      Skill("Next.js", "学習中")]),
    SkillCategory("データベース", "bg-purple-500", [
      Skill("Oracle", "2年8ヶ月"),
      Skill("SQL Server", "8ヶ月"),
      Skill("MySQL", "研修経験")]),
    SkillCategory("その他", "bg-orange-500", [
      Skill("Git/GitHub", "3年"),
      Skill("Unity（ローコード）", "8ヶ月"),
      Skill("kintone", "8ヶ月"),
      Skill("Python", "4ヶ月"),
      Skill("AWS", "学習中"),
      Skill("GitHub Actions", "学習中")])
  ]

  /** `category.skills.map((skill) => skill.name)`. */
  function Names(skills: seq<Skill>): (r: seq<string>)
    ensures |r| == |skills|
    ensures forall j :: 0 <= j < |skills| ==> r[j] == skills[j].name
  {
    seq(|skills|, j requires 0 <= j < |skills| => skills[j].name)
  }

  /** The number of skills over all categories. */
  function SkillCount(cats: seq<SkillCategory>): nat
    decreases |cats|
  {
    if cats == [] then 0 else SkillCount(cats[..|cats| - 1]) + |cats[|cats| - 1].skills|
  }

  /** `flatMap` of the names, unfolded from the last category. */
  function FlatNames(cats: seq<SkillCategory>): (r: seq<string>)
    decreases |cats|
  {
    if cats == [] then [] else FlatNames(cats[..|cats| - 1]) + Names(cats[|cats| - 1].skills)
  }

  /** `getAllSkillNames()`. */
  function AllSkillNames(): (r: seq<string>)
    ensures |r| == SkillCount(SkillCategories)
  {
    FlatNamesLength(SkillCategories);
    FlatNames(SkillCategories)
  }

  /** As many names as skills. */
  lemma {:induction false} FlatNamesLength(cats: seq<SkillCategory>)
    ensures |FlatNames(cats)| == SkillCount(cats)
    decreases |cats|
  {
    if cats != [] {
      FlatNamesLength(cats[..|cats| - 1]);
    }
  }

  lemma {:induction false} SkillCountPrefix(cats: seq<SkillCategory>, k: nat)
    requires k < |cats|
    ensures SkillCount(cats[..k]) + |cats[k].skills| <= SkillCount(cats)
    decreases |cats|
  {
    var init := cats[..|cats| - 1];
    if k < |cats| - 1 {
      assert init[..k] == cats[..k];
      SkillCountPrefix(init, k);
    } else {
      assert init == cats[..k];
    }
  }

  /** Category by category, in skill order: the j-th skill of category k sits
      after the skills of the categories before k. */
  lemma {:induction false} FlatNamesOrder(cats: seq<SkillCategory>, k: nat, j: nat)
    requires k < |cats| && j < |cats[k].skills|
    ensures SkillCount(cats[..k]) + j < |FlatNames(cats)|
    ensures FlatNames(cats)[SkillCount(cats[..k]) + j] == cats[k].skills[j].name
    decreases |cats|
  {
    var init := cats[..|cats| - 1];
    FlatNamesLength(cats);
    SkillCountPrefix(cats, k);
    FlatNamesLength(init);
    if k < |cats| - 1 {
      assert init[..k] == cats[..k];
      FlatNamesOrder(init, k, j);
    } else {
      assert init == cats[..k];
    }
  }

  /** A name is listed exactly when some skill of some category has it. */
  lemma FlatNamesMembership(cats: seq<SkillCategory>, name: string)
    ensures name in FlatNames(cats) <==>
              exists k, j :: 0 <= k < |cats| && 0 <= j < |cats[k].skills| && cats[k].skills[j].name == name
  {
    if name in FlatNames(cats) {
      ListedIsSkill(cats, name);
    }
    if exists k, j :: 0 <= k < |cats| && 0 <= j < |cats[k].skills| && cats[k].skills[j].name == name {
      var k, j :| 0 <= k < |cats| && 0 <= j < |cats[k].skills| && cats[k].skills[j].name == name;
      FlatNamesOrder(cats, k, j);
    }
  }

  lemma {:induction false} ListedIsSkill(cats: seq<SkillCategory>, name: string)
    requires name in FlatNames(cats)
    ensures exists k, j :: 0 <= k < |cats| && 0 <= j < |cats[k].skills| && cats[k].skills[j].name == name
    decreases |cats|
  {
    var n := |cats| - 1;
    var init := cats[..n];
    var last := Names(cats[n].skills);
    assert FlatNames(cats) == FlatNames(init) + last;
    if name in FlatNames(init) {
      ListedIsSkill(init, name);
      var k, j :| 0 <= k < |init| && 0 <= j < |init[k].skills| && init[k].skills[j].name == name;
      assert cats[k] == init[k];
    } else {
      var j :| 0 <= j < |last| && last[j] == name;
      assert cats[n].skills[j].name == name;
    }
  }

  /** The shape the data keeps: every category has a skill and a `bg-` dot
      colour, and every skill a name and a duration. */
  predicate WellFormed(cats: seq<SkillCategory>) {
    |cats| > 0 &&
    forall k :: 0 <= k < |cats| ==>
      |cats[k].skills| > 0 && Strings.StartsWith(cats[k].dotColor, "bg-") &&
      forall j :: 0 <= j < |cats[k].skills| ==> cats[k].skills[j].name != "" && cats[k].skills[j].duration != ""
  }

  lemma SkillCategoriesWellFormed()
    ensures WellFormed(SkillCategories)
  {
    forall k | 0 <= k < |SkillCategories| ensures Strings.StartsWith(SkillCategories[k].dotColor, "bg-") {
      assert SkillCategories[k].dotColor[..3] == "bg-";
    }
  }

  /** `getAllSkillNames()` returns the 19 names, one per skill. */
  lemma AllSkillNamesCount()
    ensures |AllSkillNames()| == SkillCount(SkillCategories) == 19
  {
    FlatNamesLength(SkillCategories);
    var c := SkillCategories;
    assert c[..1][..0] == [];
    assert SkillCount(c[..1]) == 5;
    assert c[..2][..1] == c[..1];
    assert SkillCount(c[..2]) == 10;
    assert c[..3][..2] == c[..2];
    assert SkillCount(c[..3]) == 13;
    assert c[..4][..3] == c[..3];
    assert c[..4] == c;
  }
}
