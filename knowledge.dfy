/**
  The knowledge base: an ordered table of disease records whose every field is
  text. Row positions are the row labels, so looking a row up by label and by
  position agree.
 */
module Knowledge {

  datatype Row = Row(
    diseaseName: string,      // "<Plant>: <Disease>"
    description: string,
    possibleSteps: string,    // the treatment text
    supplementName: string,
    buyLink: string)

  /** The table's column names. */
  datatype Column = DiseaseName | Description | PossibleSteps | SupplementName | BuyLink

  /** `row[column]` */
  function Field(row: Row, column: Column): string
  {
    match column
    case DiseaseName => row.diseaseName
    case Description => row.description
    case PossibleSteps => row.possibleSteps
    case SupplementName => row.supplementName
    case BuyLink => row.buyLink
  }

  /** The `disease_name` column, in row order. */
  function DiseaseNames(rows: seq<Row>): (r: seq<string>)
    ensures |r| == |rows|
  {
    seq(|rows|, i requires 0 <= i < |rows| => rows[i].diseaseName)
  }
}
