/** Values shared by the stages of the detection pipeline. */
module Types {

  datatype Option<+T> = None | Some(value: T)

  newtype byte = b: int | 0 <= b < 256

  /** A colour as OpenCV takes it: blue, green, red. */
  datatype Colour = Bgr(blue: int, green: int, red: int)

  /** What drawing one accepted box leaves on a frame: a rectangle from
      (x1, y1) to (x2, y2) and the label "class: confidence" whose origin
      is 10 pixels above the rectangle's top-left corner, both in `colour`. */
  datatype Overlay = Overlay(
    x1: int, y1: int, x2: int, y2: int,
    colour: Colour,
    cls: string, conf: real,
    labelX: int, labelY: int)

  /** A captured frame. The pixels are opaque; the drawing the inference
      stage does on a frame is recorded as the list of its overlays. */
  datatype Frame = Frame(pixels: seq<byte>, overlays: seq<Overlay>)
}
