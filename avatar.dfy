/** components/UI/Avatar.tsx: the fallback initials shown when a user has no
 *  picture. */
module Avatar {
  import opened Text
  import opened Models

  /** `${word[0]}` in a template literal: the first character, or the text
   *  "undefined" when the word is empty. */
  function FirstCharText(word: string): (r: string)
    ensures word != "" ==> r == [word[0]]
    ensures word == "" ==> r == "undefined"
  {
    if word == "" then "undefined" else [word[0]]
  }

  /** `getInitials` as written. */
  function GetInitials(userName: Option<string>): (r: string)
    ensures userName.None? || userName.value == "" ==> r == ""
    ensures userName.Some? && userName.value != "" && ' ' !in userName.value ==>
              r == ToUpper(Prefix(userName.value, 2)) && |r| == (if |userName.value| < 2 then |userName.value| else 2)
    ensures userName.Some? && ' ' in userName.value ==>
              var names := Split(userName.value);
              r == ToUpper(FirstCharText(names[0]) + FirstCharText(names[|names| - 1]))
  {
    if userName.None? || userName.value == "" then ""
    else
      var names := Split(userName.value);
      SplitIsSeveralIffSpace(userName.value);
      if |names| > 1 then ToUpper(FirstCharText(names[0]) + FirstCharText(names[|names| - 1]))
      else ToUpper(Prefix(userName.value, 2))
  }

  /** With a non-empty first and last word, a name of several words gives the
   *  upper-cased first letters of those two words. */
  lemma TwoInitialsFromFirstAndLastWord(name: string)
    requires ' ' in name
    requires Split(name)[0] != "" && Split(name)[|Split(name)| - 1] != ""
    ensures var names := Split(name);
      GetInitials(Some(name)) == [UpperChar(names[0][0]), UpperChar(names[|names| - 1][0])]
  {
  }

  /** When every space-separated word is non-empty there are at most two initials. */
  lemma AtMostTwoInitials(name: string)
    requires forall k :: 0 <= k < |Split(name)| ==> Split(name)[k] != ""
    ensures |GetInitials(Some(name))| <= 2
  {
  }

  /** A name with a leading space has an empty first word, and `names[0][0]`
   *  turns into the text "UNDEFINED". */
  lemma LeadingSpaceShowsUndefined()
    ensures GetInitials(Some(" Bob")) == "UNDEFINEDB"
  {
    assert " Bob"[1..] == "Bob";
    SplitWithoutSpace("Bob");
    assert Split(" Bob") == ["", "Bob"];
    var raw := FirstCharText("") + FirstCharText("Bob");
    assert raw == "undefinedB";
    UpperUndefinedB();
  }

  lemma UpperUndefinedB()
    ensures ToUpper("undefinedB") == "UNDEFINEDB"
  {
    var r := ToUpper("undefinedB");
    assert r[0] == 'U' && r[1] == 'N' && r[2] == 'D' && r[3] == 'E' && r[4] == 'F';
    assert r[5] == 'I' && r[6] == 'N' && r[7] == 'E' && r[8] == 'D' && r[9] == 'B';
  }

  /** `getInitials` with `word.charAt(0)`, which is empty for an empty word. */
  function GetInitialsCorrected(userName: Option<string>): (r: string)
    ensures |r| <= 2
    ensures userName.None? || userName.value == "" ==> r == ""
  {
    if userName.None? || userName.value == "" then ""
    else
      var names := Split(userName.value);
      if |names| > 1 then ToUpper(Prefix(names[0], 1) + Prefix(names[|names| - 1], 1))
      else ToUpper(Prefix(userName.value, 2))
  }

  /** The correction changes nothing for names whose first and last word are non-empty. */
  lemma CorrectionAgreesOnWellFormedNames(name: string)
    requires Split(name)[0] != "" && Split(name)[|Split(name)| - 1] != ""
    ensures GetInitialsCorrected(Some(name)) == GetInitials(Some(name))
  {
    if name != "" {
      SplitIsSeveralIffSpace(name);
    }
  }
}
