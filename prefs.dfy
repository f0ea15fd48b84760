/** The decisions behind the three preferences: the light/dark theme with its
    toggle label, and the avatar image with its built-in default. */
module Prefs {
  import opened Text
  import opened Records

  /** Glyph name shown on the theme toggle: it offers the other theme,
      named as `<theme>_mode`. */
  function ThemeLabel(light: bool): (glyph: string)
    ensures glyph == ThemeValue(!light) + "_mode"
  {
    if light then "dark_mode" else "light_mode"
  }

  /** Value the toggle writes under the theme key. */
  function ThemeValue(light: bool): (v: string)
    ensures v == "light" <==> light
    ensures v == "dark" <==> !light
  {
    if light then "light" else "dark"
  }

  /** Theme restored at start-up: light only for a saved `"light"`; any other
      saved value, or none, means dark. */
  function RestoresLight(saved: Option<string>): (light: bool)
    ensures light <==> saved == Some("light")
    ensures saved == None ==> !light
  {
    match saved
    case Some(v) => v == "light"
    case None => false
  }

  /** Whatever theme the toggle last chose is the one restored on reload, and
      its label names the opposite theme. */
  lemma ThemeRoundTrip(light: bool)
    ensures RestoresLight(Some(ThemeValue(light))) == light
    ensures ThemeLabel(light) == ThemeValue(!RestoresLight(Some(ThemeValue(light)))) + "_mode"
  {
  }

  /** The built-in avatar (written as scheme + rest so the verifier sees its first character). */
  const DefaultAvatarUrl: string :=
    "https://" + "static.vecteezy.com/system/resources/thumbnails/049/328/543/small_2x/face-icon-logo-flat-vector.jpg"

  /** What the avatar shows and what is saved under the avatar key. */
  datatype Avatar = Avatar(shown: string, saved: Option<string>)

  /** A saved avatar is a non-blank URL and is the one shown; with nothing
      saved the default is shown. */
  ghost predicate Consistent(a: Avatar)
  {
    match a.saved
    case Some(u) => Trim(u) != "" && a.shown == u
    case None => a.shown == DefaultAvatarUrl
  }

  /** `setAvatar(url)`: a URL that is not blank is shown and saved verbatim,
      untrimmed; a blank one shows the default and removes the saved value. */
  function SetAvatarEffect(url: string): (a: Avatar)
    ensures Consistent(a)
    ensures a.saved.Some? <==> !AllWhitespace(url)
    ensures a.saved.Some? ==> a.saved.value == url
  {
    TrimEmptyIff(url);
    if Trim(url) != "" then Avatar(url, Some(url)) else Avatar(DefaultAvatarUrl, None)
  }

  /** The URL `loadAvatar` passes to `setAvatar`: the saved one when it is a
      non-empty string, else the default. */
  function AvatarToLoad(saved: Option<string>): (url: string)
    ensures saved.Some? && saved.value != "" ==> url == saved.value
    ensures saved == None || saved == Some("") ==> url == DefaultAvatarUrl
    ensures url != ""
  {
    if saved.Some? && saved.value != "" then saved.value else DefaultAvatarUrl
  }

  lemma DefaultAvatarNotBlank()
    ensures !AllWhitespace(DefaultAvatarUrl)
  {
    assert !IsWhitespace(DefaultAvatarUrl[0]);
  }

  /** `loadAvatar`: a saved non-blank URL stays; nothing saved (or an empty
      string) saves and shows the default; a saved all-whitespace string is
      removed and the default is shown. */
  lemma LoadAvatarOutcome(saved: Option<string>)
    ensures var a := SetAvatarEffect(AvatarToLoad(saved));
      && (saved.Some? && !AllWhitespace(saved.value) ==> a == Avatar(saved.value, saved))
      && (saved.None? || saved == Some("") ==> a == Avatar(DefaultAvatarUrl, Some(DefaultAvatarUrl)))
      && (saved.Some? && saved.value != "" && AllWhitespace(saved.value) ==> a == Avatar(DefaultAvatarUrl, None))
  {
    DefaultAvatarNotBlank();
  }

  /** The avatar shown after a reload is the one shown before it. */
  lemma AvatarSurvivesReload(url: string)
    ensures SetAvatarEffect(AvatarToLoad(SetAvatarEffect(url).saved)).shown == SetAvatarEffect(url).shown
  {
    DefaultAvatarNotBlank();
    if !AllWhitespace(url) {
      assert url != [];
    }
  }

  /** The avatar prompt: a cancelled prompt keeps the current avatar; a blank
      answer resets to the default as `setAvatar("")` does; any other answer
      is `setAvatar(answer)`. */
  function PromptEffect(answer: Option<string>, current: Avatar): (a: Avatar)
    ensures answer.None? ==> a == current
    ensures answer.Some? ==> a == SetAvatarEffect(answer.value)
  {
    match answer
    case None => current
    case Some(u) => if Trim(u) == "" then SetAvatarEffect("") else SetAvatarEffect(u)
  }
}
