/** The layout constants of src/ts/settings.ts (settings.layout). */
module Settings {

  /** Shortest visual length of a skill's bar, in scaled radial units. */
  const MinSkillLength: real := 45.0

  /** Radius of the innermost ring: the scale's output for time 0. */
  const CenterRadius: real := 10.0

  /** Width of the drawing; the scale's output ends at Width / 2. */
  const Width: real := 1000.0

  /** Angular width of one bar, in radial units along the circle. */
  const SkillWidth: real := 20.0

  /** Gap kept between neighbouring bars, both along a lane and around a ring. */
  const SkillMargin: real := 4.0

  /** Number of lanes on the innermost ring. */
  const InitialCount: nat := 4
}
