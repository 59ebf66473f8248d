/** The labelled-image dataset: a table of image file names with optional
    labels, the labels encoded as numbers, an optional in-memory cache of the
    preprocessed images, and indexed access to (image, label) pairs. */
module HealthData {

  datatype Option<T> = None | Some(value: T)

  /** One row of the label file: the image file name and the text of the
      `label` column (meaningless when the file has no such column). */
  datatype Row = Row(image: string, labelText: string)

  /** The label file after reading: whether it has a `label` column, and its
      rows in file order. */
  datatype Table = Table(hasLabel: bool, rows: seq<Row>)

  /** What `self.labels` holds: the squeezed tensor of label codes (a vector,
      or a 0-d tensor when the file has one row), or the list of image names
      when the file has no `label` column. */
  datatype Labels = Vector(codes: seq<int>) | Scalar(code: int) | NameList(names: seq<string>)

  /** What indexing `self.labels` returns: a label code or an image name. */
  datatype Target = Score(code: int) | Name(name: string)

  /** The code of one label: "negative" is 0, anything else 1. */
  function LabelCode(text: string): (c: int)
    ensures c == 0 <==> text == "negative"
    ensures c == 1 <==> text != "negative"
  {
    if text == "negative" then 0 else 1
  }

  /** The label codes of the rows, one per row and in row order. */
  function EncodeLabels(rows: seq<Row>): (codes: seq<int>)
    ensures |codes| == |rows|
    ensures forall i :: 0 <= i < |rows| ==> (codes[i] == 0 <==> rows[i].labelText == "negative")
    ensures forall i :: 0 <= i < |rows| ==> (codes[i] == 1 <==> rows[i].labelText != "negative")
  {
    seq(|rows|, i requires 0 <= i < |rows| => LabelCode(rows[i].labelText))
  }

  /** `tensor.squeeze()` on a vector: a vector of one element becomes a 0-d
      tensor, any other length is kept. */
  function Squeeze(codes: seq<int>): (t: Labels)
    ensures t.Scalar? <==> |codes| == 1
    ensures t.Scalar? ==> t.code == codes[0]
    ensures !t.Scalar? ==> t == Vector(codes)
  {
    if |codes| == 1 then Scalar(codes[0]) else Vector(codes)
  }

  /** The `image` column as a list. */
  function ImageNames(rows: seq<Row>): (names: seq<string>)
    ensures |names| == |rows|
    ensures forall i :: 0 <= i < |rows| ==> names[i] == rows[i].image
  {
    seq(|rows|, i requires 0 <= i < |rows| => rows[i].image)
  }

  /** The labels the dataset keeps for a table. */
  function LabelsOf(table: Table): (labels: Labels)
    ensures table.hasLabel ==> labels == Squeeze(EncodeLabels(table.rows))
    ensures !table.hasLabel ==> labels == NameList(ImageNames(table.rows))
  {
    if table.hasLabel then Squeeze(EncodeLabels(table.rows)) else NameList(ImageNames(table.rows))
  }

  /** The path of an image: the directory string and the file name joined
      with no separator put between them. */
  function ImageFile(dir: string, name: string): (path: string)
    ensures |path| == |dir| + |name|
    ensures path[..|dir|] == dir && path[|dir|..] == name
  {
    dir + name
  }

  /** Python's indexing of a sequence of length `n`: a negative index counts
      from the end, and an index out of range is an error. */
  function PyIndex(idx: int, n: nat): (r: Option<nat>)
    ensures r.Some? <==> -(n as int) <= idx < n
    ensures r.Some? ==> r.value < n
    ensures r.Some? && idx >= 0 ==> r.value == idx
    ensures r.Some? && idx < 0 ==> r.value == n + idx
  {
    if 0 <= idx < n then Some(idx) else if -(n as int) <= idx < 0 then Some(n + idx) else None
  }

  /** `self.labels[idx]`: a tensor or list element; indexing a 0-d tensor is an
      error. */
  function LabelAt(labels: Labels, idx: int): (r: Option<Target>)
    ensures labels.Scalar? ==> r.None?
    ensures labels.Vector? ==> (r.Some? <==> PyIndex(idx, |labels.codes|).Some?)
    ensures labels.Vector? && r.Some? ==> r.value == Score(labels.codes[PyIndex(idx, |labels.codes|).value])
    ensures labels.NameList? ==> (r.Some? <==> PyIndex(idx, |labels.names|).Some?)
    ensures labels.NameList? && r.Some? ==> r.value == Name(labels.names[PyIndex(idx, |labels.names|).value])
  {
    match labels
    case Scalar(_) => None
    case Vector(codes) =>
      var j := PyIndex(idx, |codes|);
      if j.Some? then Some(Score(codes[j.value])) else None
    case NameList(ns) =>
      var j := PyIndex(idx, |ns|);
      if j.Some? then Some(Name(ns[j.value])) else None
  }

  /** In a labelled table of other than one row, the label at row `i` is the
      code of that row's label. */
  lemma LabelledTarget(rows: seq<Row>, i: int)
    requires |rows| != 1 && 0 <= i < |rows|
    ensures LabelAt(LabelsOf(Table(true, rows)), i) == Some(Score(LabelCode(rows[i].labelText)))
  {
  }

  /** In a labelled table of one row the labels are a 0-d tensor, which no
      index reaches. */
  lemma OneRowTarget(rows: seq<Row>, idx: int)
    requires |rows| == 1
    ensures LabelAt(LabelsOf(Table(true, rows)), idx).None?
  {
  }

  /** In a table without a `label` column, the label at row `i` is the image
      name of that row. */
  lemma UnlabelledTarget(rows: seq<Row>, i: int)
    requires 0 <= i < |rows|
    ensures LabelAt(LabelsOf(Table(false, rows)), i) == Some(Name(rows[i].image))
  {
  }

  /** `HealthDataset`: the image names and labels of a label file, with the
      preprocessed images kept in memory when `loadRam` holds. `preproc`
      stands for `preproc_image`: reading the file at a path and enhancing its
      contrast. */
  class HealthDataset<I> {
    const preproc: string -> I
    var labels: Labels
    var names: seq<string>
    var transform: Option<I -> I>
    var targetTransform: Option<Target -> Target>
    var imagePath: string
    /** The cache; empty when `loadRam` is off, where Python has no such attribute. */
    var images: seq<I>
    var loadRam: bool

    /** The labels are aligned with the names, and the cache holds the
        preprocessed image of every name, in order. */
    ghost predicate Valid()
      reads this
    {
      && (labels.Vector? ==> |labels.codes| == |names| != 1)
      && (labels.Scalar? ==> |names| == 1)
      && (labels.NameList? ==> labels.names == names)
      && (loadRam ==> |images| == |names|)
      && (loadRam ==> forall i :: 0 <= i < |names| ==> images[i] == preproc(ImageFile(imagePath, names[i])))
      && (!loadRam ==> images == [])
    }

    /** `HealthDataset(label_path, img_path, transform, target_transform,
        load_ram)` with the label file already read into `table`. */
    constructor (table: Table, imgPath: string, preproc: string -> I,
                 transform: Option<I -> I> := None, targetTransform: Option<Target -> Target> := None,
                 loadRam: bool := true)
      ensures Valid()
      ensures this.preproc == preproc
      ensures labels == LabelsOf(table)
      ensures names == ImageNames(table.rows)
      ensures this.transform == transform && this.targetTransform == targetTransform
      ensures imagePath == imgPath && this.loadRam == loadRam
      ensures loadRam ==> |images| == |table.rows|
      ensures loadRam ==> forall i :: 0 <= i < |table.rows| ==>
        images[i] == preproc(ImageFile(imgPath, table.rows[i].image))
      ensures !loadRam ==> images == []
    {
      var ns := ImageNames(table.rows);
      var cache: seq<I> := [];
      if loadRam {
        var i := 0;
        while i < |ns|
          invariant 0 <= i <= |ns|
          invariant |cache| == i
          invariant forall j :: 0 <= j < i ==> cache[j] == preproc(ImageFile(imgPath, ns[j]))
        {
          cache := cache + [preproc(ImageFile(imgPath, ns[i]))];
          i := i + 1;
        }
      }
      this.preproc := preproc;
      labels := LabelsOf(table);
      names := ns;
      this.transform := transform;
      this.targetTransform := targetTransform;
      imagePath := imgPath;
      images := cache;
      this.loadRam := loadRam;
    }

    /** `load_image(idx)`: the cached copy or a fresh preprocessing of the
        image file; either way the preprocessed image of the name at `idx`. */
    method LoadImage(idx: int) returns (image: Option<I>)
      requires Valid()
      ensures image.Some? <==> PyIndex(idx, |names|).Some?
      ensures image.Some? ==> image.value == preproc(ImageFile(imagePath, names[PyIndex(idx, |names|).value]))
    {
      var j := PyIndex(idx, if loadRam then |images| else |names|);
      if j.None? {
        return None;
      }
      if loadRam {
        image := Some(images[j.value]);
      } else {
        image := Some(preproc(ImageFile(imagePath, names[j.value])));
      }
    }

    /** `__len__`: the first dimension of the label tensor, the number of
        rows; a 0-d tensor and a list of names have none. */
    method Len() returns (n: Option<nat>)
      requires Valid()
      ensures labels.Vector? ==> n == Some(|names|)
      ensures !labels.Vector? ==> n.None?
    {
      match labels
      case Vector(codes) => n := Some(|codes|);
      case Scalar(_) => n := None;
      case NameList(_) => n := None;
    }

    /** `__getitem__(idx)`: the image and label at `idx`, each passed through
        its transform when one is set. */
    method GetItem(idx: int) returns (item: Option<(I, Target)>)
      requires Valid()
      ensures item.Some? <==> PyIndex(idx, |names|).Some? && LabelAt(labels, idx).Some?
      ensures item.Some? && transform.None? ==>
        item.value.0 == preproc(ImageFile(imagePath, names[PyIndex(idx, |names|).value]))
      ensures item.Some? && transform.Some? ==>
        item.value.0 == transform.value(preproc(ImageFile(imagePath, names[PyIndex(idx, |names|).value])))
      ensures item.Some? && targetTransform.None? ==> item.value.1 == LabelAt(labels, idx).value
      ensures item.Some? && targetTransform.Some? ==>
        item.value.1 == targetTransform.value(LabelAt(labels, idx).value)
    {
      var image := LoadImage(idx);
      if image.None? {
        return None;
      }
      var target := LabelAt(labels, idx);
      if target.None? {
        return None;
      }
      var img, lab := image.value, target.value;
      if transform.Some? {
        img := transform.value(img);
      }
      if targetTransform.Some? {
        lab := targetTransform.value(lab);
      }
      item := Some((img, lab));
    }
  }
}
