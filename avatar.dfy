/** A user's avatar: the photo when there is one, otherwise up to two
    initials on a background colour picked from the first character. */
module UserAvatar {

  import opened Wrappers
  import opened Types
  import opened Text
  import ServerImproved

  /** `part.charAt(0).toUpperCase()`: empty for an empty part. */
  function Initial(part: string): string {
    if part == [] then "" else [ToUpper(part[0])]
  }

  /** `getInitials`: split on single spaces, take the first character of each
      part upper-cased, keep the first two, join. */
  function Initials(name: string): string {
    var parts := Split(name, ' ');
    var firsts := seq(|parts|, i requires 0 <= i < |parts| => Initial(parts[i]));
    Join(if |firsts| <= 2 then firsts else firsts[..2], "")
  }

  /** The initials are those of the first part and, if there is one, the
      second. */
  lemma InitialsOfFirstParts(name: string)
    ensures var parts := Split(name, ' ');
            Initials(name) == Initial(parts[0]) + (if |parts| >= 2 then Initial(parts[1]) else "")
  {
    var parts := Split(name, ' ');
    var firsts := seq(|parts|, i requires 0 <= i < |parts| => Initial(parts[i]));
    var kept := if |firsts| <= 2 then firsts else firsts[..2];
    if |kept| == 2 {
      assert kept[1..] == [firsts[1]];
      assert Join(kept, "") == firsts[0] + "" + firsts[1];
    } else {
      assert kept == [firsts[0]];
    }
  }

  /** There are at most two initials, and none is a lower-case letter. */
  lemma InitialsShape(name: string)
    ensures |Initials(name)| <= 2
    ensures forall i :: 0 <= i < |Initials(name)| ==> !IsLower(Initials(name)[i])
  {
    InitialsOfFirstParts(name);
  }

  /** A name whose first two parts are non-empty shows their first letters. */
  lemma InitialsOfParts(name: string)
    requires |Split(name, ' ')| >= 2
    requires Split(name, ' ')[0] != [] && Split(name, ' ')[1] != []
    ensures Initials(name) == [ToUpper(Split(name, ' ')[0][0]), ToUpper(Split(name, ' ')[1][0])]
  {
    InitialsOfFirstParts(name);
  }

  /** For words without spaces joined by single spaces, the initials are the
      upper-cased first letters of the first two words. */
  lemma InitialsOfWords(words: seq<string>)
    requires |words| >= 2
    requires forall i :: 0 <= i < |words| ==> words[i] != [] && ' ' !in words[i]
    ensures Initials(Join(words, " ")) == [ToUpper(words[0][0]), ToUpper(words[1][0])]
  {
    assert forall w :: w in words ==> ' ' !in w;
    SplitJoin(words, ' ');
    InitialsOfParts(Join(words, [' ']));
  }

  /** A leading space makes an empty first part, which adds no initial: the
      name then shows only the initial of what follows the space. */
  lemma LeadingSpaceDropsAnInitial(rest: string)
    ensures Initials(" " + rest) == Initial(Split(rest, ' ')[0])
  {
    var name := " " + rest;
    assert name[0] == ' ' && IndexOf(name, ' ') == 0;
    assert name[1..] == rest;
    assert Split(name, ' ') == [""] + Split(rest, ' ');
    InitialsOfFirstParts(name);
  }

  // ---------------------------------------------------------------------------
  // Background colour

  const Colors: seq<string> := [
    "bg-blue-500", "bg-green-500", "bg-purple-500", "bg-pink-500",
    "bg-indigo-500", "bg-red-500", "bg-yellow-500", "bg-teal-500"
  ]

  /** `charCodeAt(0)`: the first UTF-16 code unit, which for a character
      beyond the basic plane is its high surrogate. */
  function FirstCodeUnit(name: string): nat
    requires name != []
  {
    var c := name[0] as int;
    if c < 0x1_0000 then c else 0xD800 + (c - 0x1_0000) / 0x400
  }

  /** The colour index; an empty name has none (`NaN`), so no colour. */
  function ColorIndex(name: string): Option<nat> {
    if name == [] then None else Some(FirstCodeUnit(name) % |Colors|)
  }

  /** `getBackgroundColor`: `undefined` is `None`. */
  function BackgroundColor(name: string): (r: Option<string>)
    ensures r.Some? <==> name != []
    ensures r.Some? ==> r.value in Colors
  {
    match ColorIndex(name)
    case None => None
    case Some(i) => Some(Colors[i])
  }

  /** A non-empty name gets one of the eight colours, chosen by its first
      character alone; an empty name gets none. */
  lemma ColorByFirstCharacter(name: string, other: string)
    ensures ColorIndex(name).Some? <==> name != []
    ensures ColorIndex(name).Some? ==> ColorIndex(name).value < 8
    ensures name != [] && other != [] && name[0] == other[0] ==> BackgroundColor(name) == BackgroundColor(other)
    ensures name != [] && name[0] as int < 0x1_0000 ==>
              ColorIndex(name) == Some(name[0] as int % 8)
              && BackgroundColor(name) == Some(Colors[name[0] as int % 8])
  {
  }

  // ---------------------------------------------------------------------------
  // Photo or initials

  datatype AvatarView =
    | Photo(src: string, alt: string)
    | InitialsBadge(text: string, color: Option<string>)

  function Avatar(displayName: string, photoUrl: Option<string>): AvatarView {
    if Truthy(photoUrl) then Photo(photoUrl.value, displayName)
    else InitialsBadge(Initials(displayName), BackgroundColor(displayName))
  }

  /** The photo is shown exactly when the photo URL is truthy; otherwise the
      badge shows the initials and colour of the display name. */
  lemma AvatarChoice(displayName: string, photoUrl: Option<string>)
    ensures Avatar(displayName, photoUrl).Photo? <==> photoUrl.Some? && photoUrl.value != ""
    ensures Avatar(displayName, photoUrl).Photo? ==>
              Avatar(displayName, photoUrl) == Photo(photoUrl.value, displayName)
    ensures Avatar(displayName, photoUrl).InitialsBadge? ==>
              && Avatar(displayName, photoUrl).text == Initials(displayName)
              && Avatar(displayName, photoUrl).color == BackgroundColor(displayName)
    ensures Avatar(displayName, photoUrl).InitialsBadge? ==>
              |Avatar(displayName, photoUrl).text| <= 2
              && (displayName != [] <==> Avatar(displayName, photoUrl).color.Some?)
  {
    InitialsShape(displayName);
  }

  /** Users served by the backend always carry a photo URL, so their avatar is
      always the photo (the avatar service's picture when theirs is missing). */
  lemma BackendUsersShowPhoto(u: ServerImproved.GraphUser, photos: string -> Option<string>)
    ensures var answered := ServerImproved.Enrich(u, photos);
            Avatar(u.displayName, Some(answered.photoUrl)) == Photo(answered.photoUrl, u.displayName)
  {
    var url := ServerImproved.Enrich(u, photos).photoUrl;
    assert |url| >= |ServerImproved.PhotoFallbackPrefix| || |url| >= |ServerImproved.PhotoDataPrefix|;
  }
}
