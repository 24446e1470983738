/** The declaration tables the schema hands to the codec library's Choice:
    an ordered list of named root alternatives, an optional extension
    marker (`{extension: true}`) and the extension additions declared after
    it. Alternatives are numbered in declaration order, the additions
    continuing after the root. */
module Asn {

  datatype ChoiceTable = ChoiceTable(root: seq<string>, extensible: bool, additions: seq<string>)

  /** Every alternative's name, in numbering order. */
  function Alternatives(t: ChoiceTable): seq<string>
  {
    t.root + t.additions
  }

  /** Additions can only follow a marker. */
  predicate WellFormed(t: ChoiceTable)
  {
    t.additions != [] ==> t.extensible
  }
}
