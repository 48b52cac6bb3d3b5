/** The per-user layout preference store of src/frontend/LayoutManager.cpp
    and the text form `exportPreferences` writes. Its mutex is not
    modelled. */
module LayoutManagers {
  import opened Wrappers
  import opened Text

  datatype UserLayoutPreferences = UserLayoutPreferences(theme: string, layoutPreset: string, compactMode: bool)

  /** A default-constructed preference record. */
  const DefaultPreferences: UserLayoutPreferences := UserLayoutPreferences("", "", false)

  /** The preferences stored for `userId`, or the defaults. */
  function PreferencesIn(m: map<string, UserLayoutPreferences>, userId: string): (p: UserLayoutPreferences)
    ensures userId in m ==> p == m[userId]
    ensures userId !in m ==> p == DefaultPreferences
  {
    if userId in m then m[userId] else DefaultPreferences
  }

  function BoolWord(b: bool): string {
    if b then "true" else "false"
  }

  /** The text `exportPreferences` builds:
      layoutPreset=<preset>;theme=<theme>;compactMode=<true|false>. */
  function Serialize(p: UserLayoutPreferences): string {
    "layoutPreset=" + (p.layoutPreset + (";" + ("theme=" + (p.theme + (";" + ("compactMode=" + BoolWord(p.compactMode)))))))
  }

  /** The text before the first `c` and the text after it. */
  function SplitAt(s: string, c: char): Option<(string, string)>
    decreases |s|
  {
    if s == [] then None
    else if s[0] == c then Some(([], s[1..]))
    else match SplitAt(s[1..], c)
      case None => None
      case Some(parts) => Some(([s[0]] + parts.0, parts.1))
  }

  lemma {:induction false} SplitAtJoin(a: string, c: char, b: string)
    requires c !in a
    ensures SplitAt(a + ([c] + b), c) == Some((a, b))
    decreases |a|
  {
    if a == [] {
      assert a + ([c] + b) == [c] + b;
    } else {
      assert (a + ([c] + b))[1..] == a[1..] + ([c] + b);
      SplitAtJoin(a[1..], c, b);
      assert [a[0]] + a[1..] == a;
    }
  }

  /** The text after `key` when the text starts with it. */
  function AfterKey(text: string, key: string): Option<string> {
    if StartsWith(text, key) then Some(text[|key|..]) else None
  }

  lemma AfterKeyJoin(key: string, rest: string)
    ensures AfterKey(key + rest, key) == Some(rest)
  {
    assert (key + rest)[..|key|] == key && (key + rest)[|key|..] == rest;
  }

  /** Reads the exported text back: the preset up to the first ';', the
      theme up to the next one, then a "true" or "false" compact flag. */
  function Parse(text: string): Option<UserLayoutPreferences> {
    match AfterKey(text, "layoutPreset=")
    case None => None
    case Some(afterKey) =>
      match SplitAt(afterKey, ';')
      case None => None
      case Some(parts) =>
        match ParseTheme(parts.1)
        case None => None
        case Some(rest) => Some(UserLayoutPreferences(rest.0, parts.0, rest.1))
  }

  /** "theme=<theme>;compactMode=<flag>". */
  function ParseTheme(text: string): Option<(string, bool)> {
    match AfterKey(text, "theme=")
    case None => None
    case Some(afterKey) =>
      match SplitAt(afterKey, ';')
      case None => None
      case Some(parts) =>
        match ParseFlag(parts.1)
        case None => None
        case Some(flag) => Some((parts.0, flag))
  }

  /** "compactMode=true" or "compactMode=false". */
  function ParseFlag(text: string): Option<bool> {
    if text == "compactMode=true" then Some(true)
    else if text == "compactMode=false" then Some(false)
    else None
  }

  /** "compactMode=<flag>". */
  lemma FlagRoundTrip(compactMode: bool)
    ensures ParseFlag("compactMode=" + BoolWord(compactMode)) == Some(compactMode)
  {
    if compactMode {
      assert "compactMode=" + BoolWord(compactMode) == "compactMode=true";
    } else {
      assert "compactMode=" + BoolWord(compactMode) == "compactMode=false";
    }
  }

  lemma ThemeRoundTrip(theme: string, flag: string)
    requires ';' !in theme
    ensures ParseTheme("theme=" + (theme + (";" + flag))) ==
      (if ParseFlag(flag).Some? then Some((theme, ParseFlag(flag).value)) else None)
  {
    AfterKeyJoin("theme=", theme + (";" + flag));
    SplitAtJoin(theme, ';', flag);
  }

  /** The exported text loses nothing when the preset and the theme hold no
      ';': reading it back gives the preferences exported. */
  lemma ExportRoundTrip(p: UserLayoutPreferences)
    ensures ';' !in p.layoutPreset && ';' !in p.theme ==> Parse(Serialize(p)) == Some(p)
  {
    if ';' !in p.layoutPreset && ';' !in p.theme {
      var flag := "compactMode=" + BoolWord(p.compactMode);
      var tail := "theme=" + (p.theme + (";" + flag));
      AfterKeyJoin("layoutPreset=", p.layoutPreset + (";" + tail));
      SplitAtJoin(p.layoutPreset, ';', tail);
      FlagRoundTrip(p.compactMode);
      ThemeRoundTrip(p.theme, flag);
    }
  }

  /** `LayoutManager`: preferences keyed by user id. */
  class LayoutManager {
    var userPreferences: map<string, UserLayoutPreferences>

    constructor()
      ensures userPreferences == map[]
    {
      userPreferences := map[];
    }

    /** `initialize`: nothing is loaded yet. */
    method Initialize()
      modifies this
      ensures unchanged(this)
    {
    }

    /** `applyPreferences`: the user's entry is replaced or added, every
        other user's preferences stay as they were. */
    method ApplyPreferences(userId: string, preferences: UserLayoutPreferences)
      modifies this
      ensures userPreferences == old(userPreferences)[userId := preferences]
      ensures GetPreferences(userId) == preferences
      ensures forall u :: u != userId ==> GetPreferences(u) == old(GetPreferences(u))
    {
      userPreferences := userPreferences[userId := preferences];
    }

    /** `getPreferences`: the stored entry, or the defaults for an unknown
        user. */
    function GetPreferences(userId: string): UserLayoutPreferences
      reads this
    {
      PreferencesIn(userPreferences, userId)
    }

    /** `exportPreferences`. */
    function ExportPreferences(userId: string): (text: string)
      reads this
      ensures (';' !in GetPreferences(userId).layoutPreset && ';' !in GetPreferences(userId).theme) ==>
        Parse(text) == Some(GetPreferences(userId))
    {
      ExportRoundTrip(GetPreferences(userId));
      Serialize(GetPreferences(userId))
    }

    /** `persist`: nothing is written yet. */
    method Persist()
      modifies this
      ensures unchanged(this)
    {
    }
  }

  /** An unknown user exports the defaults. */
  lemma ExportOfUnknownUser(m: map<string, UserLayoutPreferences>, userId: string)
    requires userId !in m
    ensures Serialize(PreferencesIn(m, userId)) == "layoutPreset=;theme=;compactMode=false"
  {
  }
}
