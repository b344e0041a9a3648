/** The chart data properties gathered in one record (pic/data.go). */
module Charts {
  import opened Values
  import opened Colors
  import opened Datasets
  import opened Styles
  import opened Fonts

  datatype Data = Data(
    values: Dataset,
    titles: seq<Value>,
    colors: seq<Color>,
    styles: DataStyles,
    labels: seq<Value>,
    fonts: seq<Font>,
    formats: DataStyles)
}
