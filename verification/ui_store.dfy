/** The persisted editor preferences: colour theme, font family and font
    size. Each setter replaces one field; persistence to local storage is
    outside the model. */
module UiStore {

  datatype Theme = Dark | Light

  datatype UiState = UiState(theme: Theme, fontFamily: string, fontSize: real)

  const Initial: UiState := UiState(Dark, "Inter", 16.0)

  /** `toggleTheme`: dark becomes light and light becomes dark. */
  function ToggleTheme(s: UiState): (r: UiState)
    ensures r.theme != s.theme
    ensures r.fontFamily == s.fontFamily && r.fontSize == s.fontSize
  {
    s.(theme := if s.theme == Dark then Light else Dark)
  }

  /** `setFontFamily(font)`. */
  function SetFontFamily(s: UiState, font: string): (r: UiState)
    ensures r.fontFamily == font
    ensures r.theme == s.theme && r.fontSize == s.fontSize
  {
    s.(fontFamily := font)
  }

  /** `setFontSize(size)`: any number is stored as given. */
  function SetFontSize(s: UiState, size: real): (r: UiState)
    ensures r.fontSize == size
    ensures r.theme == s.theme && r.fontFamily == s.fontFamily
  {
    s.(fontSize := size)
  }

  /** Toggling twice gives the state back, and the initial theme is dark. */
  lemma {:induction false} ToggleInvolution(s: UiState)
    ensures ToggleTheme(ToggleTheme(s)) == s
    ensures Initial.theme == Dark && ToggleTheme(Initial).theme == Light
  {
  }

  /** A setter undoes itself when given the old value back, and a later
      call wins over an earlier one. */
  lemma {:induction false} SettersOverwrite(s: UiState, f1: string, f2: string, z1: real, z2: real)
    ensures SetFontFamily(SetFontFamily(s, f1), f2) == SetFontFamily(s, f2)
    ensures SetFontFamily(SetFontFamily(s, f1), s.fontFamily) == s
    ensures SetFontSize(SetFontSize(s, z1), z2) == SetFontSize(s, z2)
    ensures SetFontSize(SetFontSize(s, z1), s.fontSize) == s
  {
  }

  /** The font setters commute with each other and with the theme toggle. */
  lemma {:induction false} SettersCommute(s: UiState, font: string, size: real)
    ensures SetFontSize(SetFontFamily(s, font), size) == SetFontFamily(SetFontSize(s, size), font)
    ensures ToggleTheme(SetFontFamily(s, font)) == SetFontFamily(ToggleTheme(s), font)
    ensures ToggleTheme(SetFontSize(s, size)) == SetFontSize(ToggleTheme(s), size)
  {
  }
}
