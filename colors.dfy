/**
 * The colour classes the dashboard picks for verdict and status tags: every
 * switch over a tag distinguishes the same four categories.
 */
module Colors {
  /** The four cases every tag switch distinguishes. */
  datatype Category = Refuted | Confirmed | Mixed | Unknown

  function Classify(tag: string): Category {
    if tag == "false" then Refuted
    else if tag == "true" then Confirmed
    else if tag == "mixture" then Mixed
    else Unknown
  }

  /** The Tailwind colour name used for each category. */
  function Hue(c: Category): string {
    match c
    case Refuted => "red"
    case Confirmed => "green"
    case Mixed => "yellow"
    case Unknown => "gray"
  }

  /** `getStatusColor`: a light badge in the hue of the status's category. */
  function StatusColor(status: string): (r: string)
    ensures var h := Hue(Classify(status)); r == "bg-" + h + "-100 text-" + h + "-800"
  {
    if status == "false" then RedBadgeSpelling(); "bg-red-100 text-red-800"
    else if status == "true" then GreenBadgeSpelling(); "bg-green-100 text-green-800"
    else if status == "mixture" then YellowBadgeSpelling(); "bg-yellow-100 text-yellow-800"
    else GrayBadgeSpelling(); "bg-gray-100 text-gray-800"
  }

  // Each badge class string read as background shade 100 and text shade 800 of one hue.

  lemma RedBadgeSpelling()
    ensures "bg-red-100 text-red-800" == "bg-" + "red" + "-100 text-" + "red" + "-800"
  {
  }

  lemma GreenBadgeSpelling()
    ensures "bg-green-100 text-green-800" == "bg-" + "green" + "-100 text-" + "green" + "-800"
  {
  }

  lemma YellowBadgeSpelling()
    ensures "bg-yellow-100 text-yellow-800" == "bg-" + "yellow" + "-100 text-" + "yellow" + "-800"
  {
  }

  lemma GrayBadgeSpelling()
    ensures "bg-gray-100 text-gray-800" == "bg-" + "gray" + "-100 text-" + "gray" + "-800"
  {
  }

  /** `getVerdictColor`: a solid dot in the hue of the verdict's category. */
  function VerdictColor(verdict: string): (r: string)
    ensures r == "bg-" + Hue(Classify(verdict)) + "-500"
  {
    if verdict == "false" then "bg-red-500"
    else if verdict == "true" then "bg-green-500"
    else if verdict == "mixture" then "bg-yellow-500"
    else "bg-gray-500"
  }

  /** Both switches split tags the same way: two tags share a badge colour exactly when they share a dot colour. */
  lemma ColorsAgree(a: string, b: string)
    ensures StatusColor(a) == StatusColor(b) <==> Classify(a) == Classify(b)
    ensures VerdictColor(a) == VerdictColor(b) <==> Classify(a) == Classify(b)
  {
  }

  /** The inline colour of the verdict text: red, green, and yellow for every other tag. */
  function VerdictTextColor(verdict: string): (r: string)
    ensures r == "text-" + (if Classify(verdict) == Unknown then "yellow" else Hue(Classify(verdict))) + "-400"
  {
    if verdict == "false" then "text-red-400"
    else if verdict == "true" then "text-green-400" else "text-yellow-400"
  }

  /**
   * The verdict text takes the dot's hue except for tags outside the three
   * known ones, whose dot is gray but whose text is yellow, like "mixture".
   */
  lemma VerdictTextMatchesDot(verdict: string)
    ensures Classify(verdict) != Unknown ==> VerdictTextColor(verdict) == "text-" + VerdictColor(verdict)[3..|VerdictColor(verdict)| - 4] + "-400"
    ensures Classify(verdict) == Unknown ==> VerdictColor(verdict) == "bg-gray-500" && VerdictTextColor(verdict) == VerdictTextColor("mixture")
  {
  }
}
