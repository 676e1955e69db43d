/**
 * The manufacturer tables (app.js:18-26): each brand's colour, and the brand a
 * podium letter stands for.
 */
module Brands {
  import opened Wrappers

  /** `BRAND`: the colour each manufacturer is drawn in. */
  const BrandColours: map<string, string> := map[
    "Ford" := "#1C3F95",
    "Holden" := "#C8102E",
    "Chevrolet" := "#FFB612",
    "Nissan" := "#FFE01A",
    "Mercedes" := "#C0C0C0",
    "Volvo" := "#00B7EB"
  ]

  /** `LETTER_TO_BRAND`: the manufacturer a podium letter stands for. */
  const LetterBrands: map<string, string> := map[
    "H" := "Holden",
    "F" := "Ford",
    "N" := "Nissan",
    "C" := "Chevrolet"
  ]

  /** The colour of an unknown manufacturer's podium cell. */
  const NeutralColour := "#ccc"

  /** `LETTER_TO_BRAND[letter] || null`: the manufacturer, or none for an unmapped letter. */
  function BrandOfLetter(letter: string): (make: Option<string>)
    ensures make.Some? <==> letter in {"H", "F", "N", "C"}
    ensures make.Some? ==> make.value in BrandColours
    ensures letter == "H" ==> make == Some("Holden")
    ensures letter == "F" ==> make == Some("Ford")
    ensures letter == "N" ==> make == Some("Nissan")
    ensures letter == "C" ==> make == Some("Chevrolet")
  {
    if letter in LetterBrands then Some(LetterBrands[letter]) else None
  }

  /** `BRAND[make]`: the manufacturer's colour, or none (`undefined`) when it has none. */
  function ColourOf(make: string): (colour: Option<string>)
    ensures colour.Some? <==> make in {"Ford", "Holden", "Chevrolet", "Nissan", "Mercedes", "Volvo"}
    ensures colour.Some? ==> colour.value != NeutralColour
  {
    if make in BrandColours then Some(BrandColours[make]) else None
  }

  /** No two manufacturers share a colour, so a colour names its manufacturer. */
  lemma ColoursDistinct(a: string, b: string)
    requires a != b
    ensures ColourOf(a).Some? && ColourOf(b).Some? ==> ColourOf(a) != ColourOf(b)
  {
  }
}
