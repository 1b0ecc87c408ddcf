/**
 * The colour families of the dashboard's Tailwind badge and text classes
 * (`bg-green-100 text-green-800`, `text-red-600`, ...). Only the family
 * matters to the logic; the shade is presentation.
 */
module Palette {

  datatype Tone = Green | Yellow | Red | Gray | Blue
}
