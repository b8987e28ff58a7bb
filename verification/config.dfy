/**
 * Configuration constants of the handheld launcher: surface size, palette,
 * font sizes and the ordered list of main-menu entries.
 */
module Config {

  /** The display surface is 480 x 320 pixels. */
  const ScreenWidth: int := 480
  const ScreenHeight: int := 320

  /** An RGB colour triple; colours are only ever passed through to draw operations. */
  datatype Rgb = Rgb(red: int, green: int, blue: int)

  const BgColor: Rgb := Rgb(30, 30, 30)
  const MenuBgColor: Rgb := Rgb(45, 45, 45)
  const TextColor: Rgb := Rgb(220, 220, 220)
  const HighlightColor: Rgb := Rgb(100, 200, 255)
  const TitleColor: Rgb := Rgb(255, 255, 255)

  const TitleFontSize: int := 28
  const MenuFontSize: int := 22

  /** Main-menu labels, in display and cycling order. */
  const MenuItems: seq<string> := ["Music", "Video", "Emulator", "Radio Tuner", "Clock"]
}
