/**
 * `ThemeContext`: the light or dark mode of the application, the palette that follows from it,
 * the copy of the mode kept in the device's key-value storage under `theme`, and the `useTheme`
 * hook that refuses to run outside the provider.
 */
module Theme {
  import opened Wrappers

  datatype ThemeMode = Light | Dark

  /** The text a mode is stored as. */
  function ModeName(m: ThemeMode): string {
    match m
    case Light => "light"
    case Dark => "dark"
  }

  /**
   * The test of `loadTheme`: a saved value is adopted only when it is present and is exactly
   * `'light'` or `'dark'`.
   */
  function SavedMode(saved: Option<string>): (r: Option<ThemeMode>)
    ensures r.Some? <==> saved == Some("light") || saved == Some("dark")
    ensures r.Some? ==> saved == Some(ModeName(r.value))
  {
    if saved == Some("light") then Some(Light)
    else if saved == Some("dark") then Some(Dark)
    else None
  }

  /** A stored mode is read back as the same mode. */
  lemma StoredModeReadBack(m: ThemeMode)
    ensures SavedMode(Some(ModeName(m))) == Some(m)
  {
    assert ModeName(Light) != ModeName(Dark) by {
      assert ModeName(Light)[0] != ModeName(Dark)[0];
    }
  }

  /** `mode === 'light' ? 'dark' : 'light'`. */
  function Toggled(m: ThemeMode): (r: ThemeMode)
    ensures r != m
    ensures m == Light ==> r == Dark
    ensures m == Dark ==> r == Light
  {
    if m == Light then Dark else Light
  }

  /** Toggling twice gives back the mode one started from. */
  lemma {:induction false} ToggleTwice(m: ThemeMode)
    ensures Toggled(Toggled(m)) == m
  {
    if m == Light {
      assert Toggled(Light) == Dark;
    } else {
      assert Toggled(Dark) == Light;
    }
  }

  /** `ThemeColors`. */
  datatype Palette = Palette(
    background: string, surface: string, primary: string, secondary: string,
    text: string, textSecondary: string, border: string, card: string,
    success: string, warning: string, error: string, shadow: string)

  const LightPalette: Palette := Palette(
    "#f0f4f8", "#ffffff", "#6366f1", "#8b5cf6", "#0f172a", "#64748b",
    "#e2e8f0", "#ffffff", "#10b981", "#f59e0b", "#ef4444", "#000000")

  const DarkPalette: Palette := Palette(
    "#0f172a", "#1e293b", "#818cf8", "#a78bfa", "#f1f5f9", "#94a3b8",
    "#334155", "#1e293b", "#34d399", "#fbbf24", "#f87171", "#000000")

  /** `colors`: the light palette exactly when the mode is light. */
  function ColorsOf(m: ThemeMode): (c: Palette)
    ensures c == LightPalette <==> m == Light
    ensures c == DarkPalette <==> m == Dark
  {
    assert LightPalette.background[1] != DarkPalette.background[1];
    match m
    case Light => LightPalette
    case Dark => DarkPalette
  }

  /** The value the provider publishes to its descendants. */
  datatype ThemeContextValue = ThemeContextValue(mode: ThemeMode, colors: Palette)

  const OutsideProvider: string := "useTheme must be used within a ThemeProvider"

  /** `useTheme`: the provider's value, or an error when there is no provider above the caller. */
  function UseTheme(context: Option<ThemeContextValue>): (r: Result<ThemeContextValue, string>)
    ensures r.Ok? <==> context.Some?
    ensures r.Ok? ==> r.value == context.value
    ensures r.Err? ==> r.error == OutsideProvider
  {
    if context.None? then Err(OutsideProvider) else Ok(context.value)
  }

  /**
   * `ThemeProvider`: the mode and the `theme` entry of the key-value storage. Reading and writing
   * the storage may fail; a failure is logged and otherwise ignored, so it is a parameter here.
   */
  class ThemeProvider {
    var mode: ThemeMode
    /** The `theme` entry of the storage, if any. */
    var saved: Option<string>

    /** The provider as first rendered, before `loadTheme` has answered. */
    constructor(stored: Option<string>)
      ensures mode == Light && saved == stored
    {
      mode := Light;
      saved := stored;
    }

    /** The context value published for the current mode. */
    function Value(): (v: ThemeContextValue)
      reads this
      ensures v.mode == mode
      ensures v.colors == LightPalette <==> mode == Light
    {
      ThemeContextValue(mode, ColorsOf(mode))
    }

    /** `loadTheme`: a valid saved mode is adopted; anything else, or a failed read, changes nothing. */
    method LoadTheme(readOk: bool)
      modifies this
      ensures readOk && SavedMode(old(saved)).Some? ==> mode == SavedMode(old(saved)).value
      ensures !readOk || SavedMode(old(saved)).None? ==> mode == old(mode)
      ensures saved == old(saved)
    {
      var s := SavedMode(saved);
      if readOk && s.Some? {
        mode := s.value;
      }
    }

    /** `setTheme`: the mode changes, and the same mode is written to the storage. */
    method SetTheme(m: ThemeMode, writeOk: bool)
      modifies this
      ensures mode == m
      ensures saved == if writeOk then Some(ModeName(m)) else old(saved)
    {
      mode := m;
      if writeOk {
        saved := Some(ModeName(m));
      }
    }

    /** `toggleTheme`: `setTheme` of the other mode. */
    method ToggleTheme(writeOk: bool)
      modifies this
      ensures mode == Toggled(old(mode))
      ensures saved == if writeOk then Some(ModeName(mode)) else old(saved)
    {
      SetTheme(Toggled(mode), writeOk);
    }
  }

  /**
   * Whatever was stored before, once a mode has been set and written, a provider started afresh on
   * that storage comes back in the same mode after `loadTheme`.
   */
  method RestartKeepsMode(stored: Option<string>, m: ThemeMode) returns (later: ThemeProvider)
    ensures later.mode == m && later.saved == Some(ModeName(m))
  {
    var first := new ThemeProvider(stored);
    first.LoadTheme(true);
    first.SetTheme(m, true);
    later := new ThemeProvider(first.saved);
    StoredModeReadBack(m);
    later.LoadTheme(true);
  }
}
