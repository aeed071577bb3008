/** Which years a major has students in: year-levels.ts. */
module YearLevels {
  import opened Prelude

  function LowerChar(c: char): char {
    if 'A' <= c <= 'Z' then (c as int + 32) as char else c
  }

  function Lower(s: string): string {
    seq(|s|, i requires 0 <= i < |s| => LowerChar(s[i]))
  }

  predicate IsFoundationMajor(acronym: Option<string>) {
    acronym.Some? && Lower(acronym.value) in ["tc", "foundation"]
  }

  predicate IsLanguageMajor(acronym: string) {
    Lower(acronym) == "dfl"
  }

  function YearLevelsForMajor(acronym: string): seq<int> {
    if Lower(acronym) == "dfl" then [1, 2]
    else if IsFoundationMajor(Some(Lower(acronym))) then [1, 2]
    else [3, 4, 5]
  }

  /** Lower-casing twice is lower-casing once, so passing an already lowered acronym changes nothing. */
  lemma LowerTwice(s: string)
    ensures Lower(Lower(s)) == Lower(s)
  {
    assert forall i :: 0 <= i < |s| ==> LowerChar(LowerChar(s[i])) == LowerChar(s[i]);
  }

  /** Years 1 and 2 belong to foundation and language majors, 3 to 5 to every other. */
  lemma YearsByKind(acronym: string, year: int)
    ensures year in YearLevelsForMajor(acronym) <==>
      if IsFoundationMajor(Some(acronym)) || IsLanguageMajor(acronym) then 1 <= year <= 2 else 3 <= year <= 5
  {
    LowerTwice(acronym);
  }

  /** Equal up to the case of ASCII letters. */
  predicate SameLetters(a: string, b: string) {
    |a| == |b| && forall i :: 0 <= i < |a| ==>
      a[i] == b[i] || (('A' <= a[i] <= 'Z' || 'a' <= a[i] <= 'z') && (a[i] as int - b[i] as int) in {32, -32})
  }

  predicate Small(s: string) {
    forall i :: 0 <= i < |s| ==> 'a' <= s[i] <= 'z'
  }

  lemma LowerMeans(a: string, name: string)
    requires Small(name)
    ensures Lower(a) == name <==> SameLetters(a, name)
  {
    if SameLetters(a, name) {
      assert forall i :: 0 <= i < |a| ==> Lower(a)[i] == name[i];
    }
  }

  /** What the two special kinds of major are called. */
  lemma KindsByName(acronym: string)
    ensures IsFoundationMajor(Some(acronym)) <==> SameLetters(acronym, "tc") || SameLetters(acronym, "foundation")
    ensures IsLanguageMajor(acronym) <==> SameLetters(acronym, "dfl")
  {
    LowerMeans(acronym, "tc");
    LowerMeans(acronym, "foundation");
    LowerMeans(acronym, "dfl");
    hide Lower, SameLetters;
  }
}
