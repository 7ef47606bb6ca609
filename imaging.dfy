/** The values the detector exchanges with the vision library: images,
    contours, the annotations drawn on an image, and the library
    primitives themselves, which the model takes as pure functions. */
module Imaging {

  /** An image (an OpenCV Mat) of rows x cols pixels; the pixel data is
      carried but never interpreted by the core. */
  datatype Frame = Frame(rows: nat, cols: nat, pixels: seq<int>)

  /** Bounding box of a contour, as `boundingRect()` returns it. */
  datatype Rect = Rect(x: int, y: int, width: nat, height: nat)

  /** A contour found in a mask: its (possibly fractional) area and box. */
  datatype Contour = Contour(area: real, rect: Rect)

  /** DetectionType: 'person' | 'fire'. */
  datatype Kind = Person | Fire

  /** One detection drawn onto an image: the rectangle from (x, y) to
      (x + width, y + height) and the text Label(kind) above it, both in
      Colour(kind). */
  datatype Mark = Mark(kind: Kind, rect: Rect)

  /** An image together with the marks drawn on it so far, in drawing order. */
  datatype Picture = Picture(base: Frame, marks: seq<Mark>)

  /** A binary mask, one flag per pixel of the plane it was built from. */
  type Mask = seq<bool>

  /** The OpenCV primitives the classifier calls:
      - heatmap: `cvtColor(COLOR_BGR2GRAY)` followed by `applyColorMap(COLORMAP_JET)`;
      - redPlane: `splitChannels()[2].getDataAsArray().flat()` of the heat map;
      - contours: one `morphologyEx(MORPH_OPEN)` and one `morphologyEx(MORPH_DILATE)`
        with the 3x3 elliptical kernel, then `findContours(RETR_EXTERNAL)`,
        in the library's discovery order. */
  datatype Vision = Vision(
    heatmap: Frame -> Frame,
    redPlane: Frame -> seq<int>,
    contours: Mask -> seq<Contour>)

  /** The text drawn above a box. */
  function Label(k: Kind): string {
    match k
    case Person => "Persona"
    case Fire => "Incendio"
  }

  /** The BGR colour of a box and its label. */
  function Colour(k: Kind): (int, int, int) {
    match k
    case Person => (0, 255, 0)
    case Fire => (0, 0, 255)
  }

  /** What is drawn for a mark is fixed by its kind, and tells the kinds
      apart: the two kinds differ in both label and colour. */
  lemma StyleIdentifiesKind(k1: Kind, k2: Kind)
    ensures Label(k1) == Label(k2) <==> k1 == k2
    ensures Colour(k1) == Colour(k2) <==> k1 == k2
  {
  }
}
