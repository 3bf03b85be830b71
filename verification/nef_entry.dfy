/**
 * An NEF entry as the tools walk it through pynmrstar: save frames, each with
 * a name, a category and loops; each loop a list of tagged columns of values.
 */
module NefEntry {
  datatype Column = Column(tag: string, values: seq<string>)
  datatype Loop = Loop(columns: seq<Column>)
  datatype SaveFrame = SaveFrame(name: string, category: string, loops: seq<Loop>)
}
