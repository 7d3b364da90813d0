/** The four single-leg strategies the viewer offers, and how a strategy name
    chosen in the sidebar is recognised. The application passes names around
    as strings and compares them with `==`; a name that matches none of the
    four falls through to `Other`. */
module Strategies {

  datatype Strategy = LongCall | ShortCall | LongPut | ShortPut | Other

  /** The names shown in the strategy selector, in menu order. */
  const Menu: seq<string> := ["Long Call", "Long Put", "Short Call", "Short Put"]

  /** Recognises a strategy name by exact string comparison. */
  function Classify(name: string): (s: Strategy)
    ensures s != Other <==> name in Menu
    ensures s != Other ==> Name(s) == name
  {
    if name == "Long Call" then LongCall
    else if name == "Short Call" then ShortCall
    else if name == "Long Put" then LongPut
    else if name == "Short Put" then ShortPut
    else Other
  }

  /** The display name of a recognised strategy. */
  function Name(s: Strategy): (name: string)
    requires s != Other
    ensures name in Menu
  {
    match s
    case LongCall => "Long Call"
    case ShortCall => "Short Call"
    case LongPut => "Long Put"
    case ShortPut => "Short Put"
  }

  /** A bought option: the premium is paid. */
  predicate IsLong(s: Strategy)
  {
    s == LongCall || s == LongPut
  }

  /** A sold option: the premium is received. */
  predicate IsShort(s: Strategy)
  {
    s == ShortCall || s == ShortPut
  }

  /** Naming a recognised strategy and classifying the name gives it back. */
  lemma ClassifyName(s: Strategy)
    requires s != Other
    ensures Classify(Name(s)) == s
  {
  }

  /** Exactly the four menu names are recognised; every other string,
      including a differently spaced or cased one, is `Other`. */
  lemma ClassifyRecognisesMenu(name: string)
    ensures Classify(name) != Other <==> name in Menu
    ensures name in Menu ==> Name(Classify(name)) == name
  {
  }

  /** Every recognised strategy is either long or short, never both. */
  lemma LongOrShort(s: Strategy)
    ensures s != Other <==> (IsLong(s) || IsShort(s))
    ensures !(IsLong(s) && IsShort(s))
  {
  }
}
