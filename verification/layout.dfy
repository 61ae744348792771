/**
 * The layout tree the renderer reads: a view holds rows, a row holds buttons.
 * The tree is built by the layout loader and read through `squeek_*`
 * accessors that are not part of this model; here it is plain data.
 */
module Layout {
  import opened Geometry

  datatype Option<T> = None | Some(value: T)

  /** A key on screen: bounds relative to its row, optional label and icon,
      and the names the style engine resolves. */
  datatype Button = Button(bounds: Bounds, labelText: Option<string>, iconName: Option<string>,
                           name: string, outline: string)

  /** A row: bounds relative to its view, a rotation angle in whole degrees
      (any value) and its buttons in order. */
  datatype Row = Row(bounds: Bounds, angle: int, buttons: seq<Button>)

  /** A view (one layer of the layout) and its rows in order. */
  datatype View = View(bounds: Bounds, rows: seq<Row>)

  /** A `struct button_place`: a button together with the row holding it. */
  datatype ButtonPlace = ButtonPlace(button: Button, row: Row)

  /** What the renderer sees of a `LevelKeyboard`: its current view. */
  datatype LevelKeyboard = LevelKeyboard(current: View)
}
