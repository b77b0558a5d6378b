/** One claim's card: its stance chips, the quotes behind it and its framing line. */
module ClaimCard {
  import opened Wrappers
  import opened Seqs
  import opened Text
  import opened AnalysisApi

  function IsMentioned(s: Stance): bool
  {
    s.stance != "not_mentioned"
  }

  function HasQuote(s: Stance): bool
  {
    s.quote != ""
  }

  /** The chips: every stance except the "not mentioned" ones, in their order. */
  function Chips(stances: seq<Stance>): (chips: seq<Stance>)
    ensures forall s :: s in chips <==> s in stances && s.stance != "not_mentioned"
  {
    Filter(stances, IsMentioned)
  }

  /** The quote list: every stance with a non-empty quote, in their order. */
  function Quotes(stances: seq<Stance>): (quotes: seq<Stance>)
    ensures forall s :: s in quotes <==> s in stances && s.quote != ""
  {
    Filter(stances, HasQuote)
  }

  /** Chips keep the stances' order and multiplicity: the chips of two runs of stances are
      those of the first run, then those of the second, and one stance gives its own chip
      unless it is "not_mentioned". */
  lemma ChipsAppend(a: seq<Stance>, b: seq<Stance>, s: Stance)
    ensures Chips(a + b) == Chips(a) + Chips(b)
    ensures Chips([s]) == if s.stance != "not_mentioned" then [s] else []
  {
    FilterAppend(a, b, IsMentioned);
    assert [s][1..] == [];
  }

  /** Quotes keep the stances' order and multiplicity in the same way. */
  lemma QuotesAppend(a: seq<Stance>, b: seq<Stance>, s: Stance)
    ensures Quotes(a + b) == Quotes(a) + Quotes(b)
    ensures Quotes([s]) == if s.quote != "" then [s] else []
  {
    FilterAppend(a, b, HasQuote);
    assert [s][1..] == [];
  }

  function IsSilent(s: Stance): bool
  {
    s.stance == "not_mentioned"
  }

  /** Every stance is either a chip or a silence, never both. */
  lemma {:induction false} ChipsAndSilences(stances: seq<Stance>)
    ensures |Chips(stances)| + |Filter(stances, IsSilent)| == |stances|
  {
    if stances != [] {
      ChipsAndSilences(stances[1..]);
    }
  }

  /** The label text for each of the four stances; others have none. */
  function StanceLabel(stance: string): (name: Option<string>)
    ensures name.None? <==> !(stance == "supports" || stance == "refutes" || stance == "neutral" || stance == "not_mentioned")
  {
    match stance
    case "supports" => Some("\U{2713} Supports")
    case "refutes" => Some("\U{2717} Refutes")
    case "neutral" => Some("\U{25CB} Neutral")
    case "not_mentioned" => Some("\U{2014} Not Mentioned")
    case _ => None
  }

  /** A chip's text: the outlet without its first ".com", a space, then the stance label (nothing
      for a stance without one). */
  function ChipText(s: Stance): (text: string)
    ensures |text| > |ReplaceFirst(s.outlet, ".com", "")|
    ensures text[..|ReplaceFirst(s.outlet, ".com", "")|] == ReplaceFirst(s.outlet, ".com", "")
    ensures text[|ReplaceFirst(s.outlet, ".com", "")|] == ' '
    ensures text[|ReplaceFirst(s.outlet, ".com", "")| + 1..] == StanceLabel(s.stance).GetOr("")
  {
    ReplaceFirst(s.outlet, ".com", "") + " " + StanceLabel(s.stance).GetOr("")
  }

  /** An outlet named "<name>.com" shows as "<name>". */
  lemma ChipTextOfDotCom(name: string, s: Stance)
    requires s.outlet == name + ".com" && !Includes(name, ".com")
    ensures ChipText(s) == name + " " + StanceLabel(s.stance).GetOr("")
  {
    assert ".com"[1..] == "com";
    ReplaceFirstTrailing(name, ".com");
  }

  /** The framing line, when shown: hedges and loaded terms, each part only when non-empty.
      Modality is never displayed. */
  function FramingLine(f: Framing): (line: Option<string>)
    ensures line.Some? <==> |f.hedges| > 0 || |f.loadedTerms| > 0
  {
    if |f.hedges| > 0 || |f.loadedTerms| > 0 then
      Some("Framing: "
           + (if |f.hedges| > 0 then "Hedges: " + Join(f.hedges, ", ") + " \U{2022} " else "")
           + (if |f.loadedTerms| > 0 then "Loaded: " + Join(f.loadedTerms, ", ") else ""))
    else None
  }

  /** The modality terms play no part in the card. */
  lemma FramingIgnoresModality(f: Framing, modality: seq<string>)
    ensures FramingLine(f) == FramingLine(f.(modality := modality))
  {
  }
}
