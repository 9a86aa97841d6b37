/** The class names of the detector and the fixed-size label field they are copied into: coco_label
    and the strncpy of yolo_parse. */
module Labels {
  /** Size of the label field of an object. */
  const LABEL_LEN: nat := 64

  const NUL: char := '\0'

  /** A text that fits the label field. */
  predicate FitsField(s: string) {
    |s| < LABEL_LEN && NUL !in s
  }

  function Name0(id: int): (s: string)
    requires 0 <= id < 10
    ensures s != "" && FitsField(s)
  {
    match id
    case 0 => "person"
    case 1 => "bicycle"
    case 2 => "car"
    case 3 => "motorcycle"
    case 4 => "airplane"
    case 5 => "bus"
    case 6 => "train"
    case 7 => "truck"
    case 8 => "boat"
    case _ => "traffic light"
  }

  function Name10(id: int): (s: string)
    requires 10 <= id < 20
    ensures s != "" && FitsField(s)
  {
    match id
    case 10 => "fire hydrant"
    case 11 => "stop sign"
    case 12 => "parking meter"
    case 13 => "bench"
    case 14 => "bird"
    case 15 => "cat"
    case 16 => "dog"
    case 17 => "horse"
    case 18 => "sheep"
    case _ => "cow"
  }

  function Name20(id: int): (s: string)
    requires 20 <= id < 30
    ensures s != "" && FitsField(s)
  {
    match id
    case 20 => "elephant"
    case 21 => "bear"
    case 22 => "zebra"
    case 23 => "giraffe"
    case 24 => "backpack"
    case 25 => "umbrella"
    case 26 => "handbag"
    case 27 => "tie"
    case 28 => "suitcase"
    case _ => "frisbee"
  }

  function Name30(id: int): (s: string)
    requires 30 <= id < 40
    ensures s != "" && FitsField(s)
  {
    match id
    case 30 => "skis"
    case 31 => "snowboard"
    case 32 => "sports ball"
    case 33 => "kite"
    case 34 => "baseball bat"
    case 35 => "baseball glove"
    case 36 => "skateboard"
    case 37 => "surfboard"
    case 38 => "tennis racket"
    case _ => "bottle"
  }

  function Name40(id: int): (s: string)
    requires 40 <= id < 50
    ensures s != "" && FitsField(s)
  {
    match id
    case 40 => "wine glass"
    case 41 => "cup"
    case 42 => "fork"
    case 43 => "knife"
    case 44 => "spoon"
    case 45 => "bowl"
    case 46 => "banana"
    case 47 => "apple"
    case 48 => "sandwich"
    case _ => "orange"
  }

  function Name50(id: int): (s: string)
    requires 50 <= id < 60
    ensures s != "" && FitsField(s)
  {
    match id
    case 50 => "broccoli"
    case 51 => "carrot"
    case 52 => "hot dog"
    case 53 => "pizza"
    case 54 => "donut"
    case 55 => "cake"
    case 56 => "chair"
    case 57 => "couch"
    case 58 => "potted plant"
    case _ => "bed"
  }

  function Name60(id: int): (s: string)
    requires 60 <= id < 70
    ensures s != "" && FitsField(s)
  {
    match id
    case 60 => "dining table"
    case 61 => "toilet"
    case 62 => "tv"
    case 63 => "laptop"
    case 64 => "mouse"
    case 65 => "remote"
    case 66 => "keyboard"
    case 67 => "cell phone"
    case 68 => "microwave"
    case _ => "oven"
  }

  function Name70(id: int): (s: string)
    requires 70 <= id < 80
    ensures s != "" && FitsField(s)
  {
    match id
    case 70 => "toaster"
    case 71 => "sink"
    case 72 => "refrigerator"
    case 73 => "book"
    case 74 => "clock"
    case 75 => "vase"
    case 76 => "scissors"
    case 77 => "teddy bear"
    case 78 => "hair drier"
    case _ => "toothbrush"
  }

  /** The name of a class, empty outside the table. */
  function CocoLabel(id: int): (s: string)
    ensures FitsField(s) && (s == "" <==> !(0 <= id < 80))
  {
    if id < 0 || id >= 80 then ""
    else if id < 10 then Name0(id)
    else if id < 20 then Name10(id)
    else if id < 30 then Name20(id)
    else if id < 40 then Name30(id)
    else if id < 50 then Name40(id)
    else if id < 60 then Name50(id)
    else if id < 70 then Name60(id)
    else Name70(id)
  }

  /** A C string: the characters before the first NUL. */
  function Text(field: seq<char>): (s: string)
    ensures |s| <= |field| && s == field[..|s|] && NUL !in s
    ensures |s| < |field| ==> field[|s|] == NUL
  {
    if field == [] || field[0] == NUL then [] else [field[0]] + Text(field[1..])
  }

  /** What strncpy leaves of a field of n characters, the last one set to NUL afterwards: the text,
      cut off where necessary and filled up with NUL. */
  function Copied(s: string, n: nat): (field: seq<char>)
    requires n > 0
    ensures |field| == n && field[n - 1] == NUL
    ensures forall k :: 0 <= k < n - 1 ==> field[k] == if k < |s| then s[k] else NUL
  {
    seq(n, k => if k < n - 1 && 0 <= k < |s| then s[k] else NUL)
  }

  /** Reading the field gives the text back up to what fits, so all of it exactly when it fits. */
  lemma ReadsBack(s: string, n: nat)
    requires n > 0 && NUL !in s
    ensures Text(Copied(s, n)) == if |s| < n then s else s[..n - 1]
    ensures Text(Copied(s, n)) == s <==> |s| < n
  {
    var f := Copied(s, n);
    var t := Text(f);
    var m := if |s| < n then |s| else n - 1;
    hide Text, Copied;
    assert f[m] == NUL;
    assert |t| == m;
  }

  /** No class name is cut off: the label written for a class reads back as its name. */
  lemma LabelReadsBack(id: int)
    ensures Text(Copied(CocoLabel(id), LABEL_LEN)) == CocoLabel(id)
  {
    ReadsBack(CocoLabel(id), LABEL_LEN);
  }
}
