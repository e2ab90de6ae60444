/** `human_format`: abbreviate a magnitude with an `M` or `k` suffix, or hand
    it back unchanged. The rendering of the scaled value with one decimal
    (`.1f`) and the `$` prefix are not modelled; the branch and the scaled
    value are. */
module Format {

  datatype Suffix = Millions | Thousands

  /** The result of `human_format`: either the text `$<scaled><suffix>`, or
      the number itself (not text) for magnitudes below one thousand. */
  datatype Display = Abbreviated(scaled: real, suffix: Suffix) | Unchanged(num: real)

  function Scale(s: Suffix): real {
    match s
    case Millions => 1_000_000.0
    case Thousands => 1_000.0
  }

  /** The magnitude a display stands for. */
  function Magnitude(d: Display): real {
    match d
    case Abbreviated(x, s) => x * Scale(s)
    case Unchanged(n) => n
  }

  /** Values of a million or more get `M`, values from a thousand up to a
      million get `k` with the scaled value in [1, 1000), and everything
      else, every negative value included, comes back as it was. Reading
      the display back always gives the original magnitude. */
  function HumanFormat(num: real): (d: Display)
    ensures d.Unchanged? <==> num < 1_000.0
    ensures d.Unchanged? ==> d.num == num
    ensures d.Abbreviated? ==> (d.suffix == Millions <==> num >= 1_000_000.0)
    ensures d.Abbreviated? && d.suffix == Thousands ==> 1.0 <= d.scaled < 1_000.0
    ensures d.Abbreviated? && d.suffix == Millions ==> d.scaled >= 1.0
    ensures Magnitude(d) == num
  {
    if num >= 1_000_000.0 then Abbreviated(num / 1_000_000.0, Millions)
    else if num >= 1_000.0 then Abbreviated(num / 1_000.0, Thousands)
    else Unchanged(num)
  }

  /** Sample values: 999 stays a number, 1500 becomes `$1.5k`, 2 300 000 becomes `$2.3M`. */
  lemma HumanFormatSamples()
    ensures HumanFormat(999.0) == Unchanged(999.0)
    ensures HumanFormat(1_500.0) == Abbreviated(1.5, Thousands)
    ensures HumanFormat(2_300_000.0) == Abbreviated(2.3, Millions)
    ensures HumanFormat(-5_000_000.0) == Unchanged(-5_000_000.0)
  {
  }
}
