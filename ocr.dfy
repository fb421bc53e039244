/** The values the text detector returns. The detector itself (a call into
    the platform's vision framework) is not modelled: callers receive it as a
    function from an image path to its detections. */
module Ocr {
  import opened Base

  /** x, y, width, height of a detected region. */
  datatype BBox = BBox(x: real, y: real, width: real, height: real)

  /** Recognised text, the engine's confidence, and where the text is. */
  datatype OcrResult = OcrResult(text: string, confidence: real, box: BBox)

  /** `detect_text` as a function of the image path: the same image path
      always yields the same detections. */
  type Detector = Path -> seq<OcrResult>
}
