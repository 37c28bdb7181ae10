/**
 * The settings page: the preference toggles, the profile photo guards and
 * the initials shown when there is no photo.
 */
module Settings {
  import opened Wrappers
  import opened Text

  /** One preference checkbox. */
  datatype Pref = Pref(id: string, labelText: string, checked: bool)

  const InitialPrefs: seq<Pref> := [
    Pref("notifications", "Email Notifications", true),
    Pref("nightowl", "Night Owl Mode \U{1F989}", false),
    Pref("publicProfile", "Public Profile", true)
  ]

  // --------------------------------------------------------- preferences

  /**
   * A click on a preference: length, order, ids and labels are kept, and
   * `checked` flips exactly on the preferences with that id.
   */
  function TogglePrefs(ps: seq<Pref>, id: string): (r: seq<Pref>)
    ensures |r| == |ps|
    ensures forall k :: 0 <= k < |ps| ==>
              && r[k].id == ps[k].id
              && r[k].labelText == ps[k].labelText
              && (r[k].checked != ps[k].checked <==> ps[k].id == id)
  {
    seq(|ps|, k requires 0 <= k < |ps| => if ps[k].id == id then ps[k].(checked := !ps[k].checked) else ps[k])
  }

  /** Toggling the same preference twice is the identity. */
  lemma TogglePrefsTwice(ps: seq<Pref>, id: string)
    ensures TogglePrefs(TogglePrefs(ps, id), id) == ps
  {
    var twice := TogglePrefs(TogglePrefs(ps, id), id);
    forall k | 0 <= k < |ps| ensures twice[k] == ps[k] {
    }
  }

  // -------------------------------------------------------------- photo

  /** The size limit, `5 * 1024 * 1024` bytes. */
  const MaxPhotoBytes: nat := 5 * 1024 * 1024
  /** The MIME type prefix a photo must have. */
  const ImageTypePrefix: string := "image/"

  /** The selected file, as far as the guards look at it. */
  datatype File = File(size: nat, mimeType: string)

  /** The outcome of `handlePhotoChange`. */
  datatype PhotoCheck = NoFile | TooLarge | InvalidType | Accepted

  /**
   * The guards in source order: no file, then size, then type. A file is
   * accepted exactly when it is at most 5 MiB and its type starts with
   * `image/`; a file that fails both guards is reported as too large.
   */
  function CheckPhoto(file: Option<File>): (r: PhotoCheck)
    ensures r == NoFile <==> file.None?
    ensures r == TooLarge <==> file.Some? && file.value.size > MaxPhotoBytes
    ensures r == InvalidType <==>
              file.Some? && file.value.size <= MaxPhotoBytes && !StartsWith(file.value.mimeType, ImageTypePrefix)
    ensures r == Accepted <==>
              file.Some? && file.value.size <= MaxPhotoBytes && StartsWith(file.value.mimeType, ImageTypePrefix)
  {
    match file
    case None => NoFile
    case Some(f) =>
      if f.size > MaxPhotoBytes then TooLarge
      else if !StartsWith(f.mimeType, ImageTypePrefix) then InvalidType
      else Accepted
  }

  /** The boundary: 5,242,880 bytes passes the size guard and one byte more does not. */
  lemma SizeBoundary()
    ensures MaxPhotoBytes == 5242880
    ensures CheckPhoto(Some(File(5242880, "image/png"))) == Accepted
    ensures CheckPhoto(Some(File(5242881, "image/png"))) == TooLarge
    ensures CheckPhoto(Some(File(5242881, "text/plain"))) == TooLarge
    ensures CheckPhoto(Some(File(10, "text/plain"))) == InvalidType
  {
    assert "text/plain"[0] != ImageTypePrefix[0];
  }

  // ----------------------------------------------------------- initials

  /**
   * The initials shown without a photo: the first character of every
   * space-separated piece of the name, upper-cased, cut after the second.
   * No more than two characters, and no lower-case letter among them.
   */
  function GetInitials(name: string): (r: string)
    ensures |r| <= 2
    ensures forall i :: 0 <= i < |r| ==> !IsLowerLetter(r[i])
  {
    Take(Upper(FirstLetters(Split(name, ' '))), 2)
  }

  /**
   * The initials are the upper-cased characters that start a word of the
   * name, in order, cut after the second.
   */
  lemma GetInitialsSpec(name: string)
    ensures GetInitials(name) == Upper(Take(WordStarts(name, ' ', true), 2))
    ensures GetInitials(name) <= Upper(WordStarts(name, ' ', true))
  {
    FirstLettersOfSplit(name, ' ');
    UpperTake(WordStarts(name, ' ', true), 2);
  }

  /** A two-word name gives the upper-cased first character of each word. */
  lemma GetInitialsOfTwoWords(a: string, b: string)
    requires a != "" && b != "" && ' ' !in a && ' ' !in b
    ensures GetInitials(a + " " + b) == [UpperChar(a[0]), UpperChar(b[0])]
  {
    FirstLettersOfTwoWords(a, b);
  }

  /** The default name gives "DR". */
  lemma DefaultInitials()
    ensures GetInitials("Dr. Researcher") == "DR"
  {
    assert "Dr. Researcher" == "Dr." + " " + "Researcher";
    GetInitialsOfTwoWords("Dr.", "Researcher");
  }

  // --------------------------------------------------------------- avatar

  /** What the avatar circle shows. */
  datatype Avatar = Photo(url: string) | InitialsBadge(text: string)

  /** The photo when a non-empty URL is set (an empty URL is falsy), the name's initials otherwise. */
  function AvatarOf(avatarUrl: Option<string>, name: string): (a: Avatar)
    ensures a.Photo? <==> avatarUrl.Some? && avatarUrl.value != ""
    ensures a.Photo? ==> a.url == avatarUrl.value
    ensures a.InitialsBadge? ==> a.text == GetInitials(name)
  {
    if avatarUrl.Some? && avatarUrl.value != "" then Photo(avatarUrl.value) else InitialsBadge(GetInitials(name))
  }

  // ----------------------------------------------------------- the page

  class SettingsPage {
    var prefs: seq<Pref>
    var name: string
    var title: string
    var avatarUrl: Option<string>

    constructor ()
      ensures prefs == InitialPrefs && name == "Dr. Researcher" && title == "AI & Neuroscience"
      ensures avatarUrl == None
    {
      prefs := InitialPrefs;
      name := "Dr. Researcher";
      title := "AI & Neuroscience";
      avatarUrl := None;
    }

    /** A click on a preference row. */
    method TogglePref(id: string)
      modifies this
      ensures prefs == TogglePrefs(old(prefs), id)
      ensures name == old(name) && title == old(title) && avatarUrl == old(avatarUrl)
    {
      prefs := TogglePrefs(prefs, id);
    }

    /** Typing in the Display Name field. */
    method SetName(n: string)
      modifies this
      ensures name == n
      ensures prefs == old(prefs) && title == old(title) && avatarUrl == old(avatarUrl)
    {
      name := n;
    }

    /** Typing in the Research Title field. */
    method SetTitle(t: string)
      modifies this
      ensures title == t
      ensures prefs == old(prefs) && name == old(name) && avatarUrl == old(avatarUrl)
    {
      title := t;
    }

    /**
     * A file chosen in the hidden file input. The guards return early on
     * rejection; an accepted file's data URL (what the file reader produces,
     * given here as `dataUrl`) becomes the avatar.
     */
    method HandlePhotoChange(file: Option<File>, dataUrl: string) returns (outcome: PhotoCheck)
      modifies this
      ensures outcome == CheckPhoto(file)
      ensures avatarUrl == if outcome == Accepted then Some(dataUrl) else old(avatarUrl)
      ensures prefs == old(prefs) && name == old(name) && title == old(title)
    {
      if file.None? {
        return NoFile;
      }
      var f := file.value;
      if f.size > MaxPhotoBytes {
        return TooLarge;
      }
      if !StartsWith(f.mimeType, ImageTypePrefix) {
        return InvalidType;
      }
      avatarUrl := Some(dataUrl);
      return Accepted;
    }

    /** The avatar circle: the stored photo when its URL is non-empty, the name's initials otherwise. */
    function Avatar(): (a: Avatar)
      reads this
      ensures a.Photo? <==> avatarUrl.Some? && avatarUrl.value != ""
      ensures a.Photo? ==> a.url == avatarUrl.value
      ensures a.InitialsBadge? ==> a.text == GetInitials(name)
    {
      AvatarOf(avatarUrl, name)
    }
  }
}
