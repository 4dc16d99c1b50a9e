/** Element content models (production [46] contentspec, section 3.2 of
    XML 1.0).  `ContentModel.parse` is a stub in the modelled code, so a
    model is opaque here: its type keyword and the element names it lists
    as children are all the rest of the code asks of it. */
module ContentModels {
  /** The type keywords a model may carry. */
  const Empty := "EMPTY"
  const Any := "ANY"
  const Mixed := "Mixed"
  const PcData := "#PCDATA"

  /** Cardinality codes of content particles. */
  const Once := 0
  const Optional := 1
  const ZeroMany := 2
  const OneMany := 3

  datatype ContentModel = ContentModel(modelType: string, children: set<string>)
}
