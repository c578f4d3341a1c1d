/** The name and avatar initials shown on the profile card (internship/src/components/profile/UserProfile.tsx). */
module UserProfile {
  import opened JsText

  const DefaultName := "User"
  const DefaultInitial := "U"

  /** `` `${firstName} ${lastName ? lastName : ""}` ``: an empty last name interpolates as "" too. */
  function Joined(firstName: string, lastName: string): (r: string)
    ensures r == firstName + " " + lastName
  {
    firstName + " " + (if |lastName| > 0 then lastName else "")
  }

  /** `` `${firstName} ${lastName ? lastName : ""}`.trim() || "User" `` */
  function FullName(firstName: string, lastName: string): (r: string)
    ensures |r| > 0
    ensures r == DefaultName <==> Trim(Joined(firstName, lastName)) == [] || Trim(Joined(firstName, lastName)) == DefaultName
    ensures r == if Trim(Joined(firstName, lastName)) == [] then DefaultName else Trim(Joined(firstName, lastName))
    ensures r != DefaultName ==> !IsWhitespace(r[0]) && !IsWhitespace(r[|r| - 1])
  {
    var t := Trim(Joined(firstName, lastName));
    TrimSpec(Joined(firstName, lastName));
    if |t| > 0 then t else DefaultName
  }

  /** Without a last name the full name is the trimmed first name, or "User". */
  lemma FullNameWithoutLastName(firstName: string)
    ensures FullName(firstName, "") == if Trim(firstName) == [] then DefaultName else Trim(firstName)
  {
    assert firstName + " " + "" == firstName + " ";
    TrimDropsTrailingWhitespace(firstName, " ");
  }

  /** Names without surrounding whitespace are joined by one space. */
  lemma FullNameOfCleanNames(firstName: string, lastName: string)
    requires |firstName| > 0 && !IsWhitespace(firstName[0]) && !IsWhitespace(firstName[|firstName| - 1])
    requires |lastName| > 0 && !IsWhitespace(lastName[0]) && !IsWhitespace(lastName[|lastName| - 1])
    ensures FullName(firstName, lastName) == firstName + " " + lastName
  {
    TrimOfTrimmed(Joined(firstName, lastName));
  }

  /** Blank names (empty or whitespace only) give "User". */
  lemma FullNameOfBlankNames(firstName: string, lastName: string)
    requires AllWhitespace(firstName) && AllWhitespace(lastName)
    ensures FullName(firstName, lastName) == DefaultName
  {
  }

  /** `firstName?.[0] || ""`: the first character, if any. */
  function Head(s: string): string
  {
    if |s| > 0 then [s[0]] else ""
  }

  /** `` `${firstName?.[0] || ""}${lastName?.[0] || ""}`.toUpperCase() || "U" `` */
  function Initials(firstName: string, lastName: string): (r: string)
    ensures 1 <= |r| <= 2
    ensures |firstName| == 0 && |lastName| == 0 ==> r == DefaultInitial
    ensures |firstName| > 0 ==> r[0] == UpperChar(firstName[0])
    ensures |firstName| > 0 && |lastName| > 0 ==> r == [UpperChar(firstName[0]), UpperChar(lastName[0])]
    ensures |firstName| == 0 && |lastName| > 0 ==> r == [UpperChar(lastName[0])]
    ensures |firstName| > 0 && |lastName| == 0 ==> r == [UpperChar(firstName[0])]
  {
    var u := ToUpper(Head(firstName) + Head(lastName));
    if |u| > 0 then u else DefaultInitial
  }
}
