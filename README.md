# Configuration flattening and the labelled-image dataset, in Dafny

This project models two pieces of a medical-image classification code base.

**Model configuration** (`src/models/mvit_module.py`):
- `flatten_yaml_as_dict` turns a parsed YAML document into one dictionary. Its keys are the key paths to the leaves, joined by a separator (`.` by default).
- `NestedNamespace` turns a dictionary into an object with one attribute per key. A dictionary value becomes a nested namespace.
- `load_config` flattens the parsed document and wraps the result in a `NestedNamespace`.

**Labelled-image dataset** (`src/datamodules/datasets/health.py`, class `HealthDataset`):
- It keeps the image names of a label file and the labels, encoded from text to 0/1.
- It may keep a cache of the preprocessed images.
- It serves (image, label) pairs by index, passing each through an optional transform.

Files:
- `ordered_dict.dfy` (module `OrderedDict`): Python's insertion-ordered `dict`. A dictionary is a sequence of keys in first-insertion order plus a map holding the current values. `Put` is `d[k] = v`, `PutAll`/`FromItems` is `dict(items)` and `Items` is `d.items()`. Lemmas cover what `dict(items)` keeps: which keys, the last value written and the number of keys.
- `mvit_config.dfy` (module `MvitConfig`):
  - A parsed document is a `Tree`: a leaf value, or a mapping with its entries in document order.
  - `Flatten` is the reference definition. It lists every leaf with the path of keys leading to it (`LeafPathsOf`), joins each path the way the code does (`JoinKey`), and builds a `dict` from the pairs.
  - `FlattenYamlAsDict` is the source's loop and recursion, building the `items` list by append and extend. It is proved equal to `Flatten`.
  - `NestedNamespace` is a class. Its attributes are a dictionary of plain values and sub-namespace objects. A ghost `Model` holds what they denote, and `Repr` is the footprint.
  - `NamespaceOf` is the reference definition of the namespace a mapping gives.
  - `LoadConfig` is the flatten-then-namespace composition.
- `health_dataset.dfy` (module `HealthData`): the class `HealthDataset` with the fields `__init__` sets. Its invariant keeps names, labels and cache aligned. `LoadImage`, `Len` and `GetItem` are read-only methods.

Facts the source code settles:
- `load_config` passes the already *flattened* dictionary to `NestedNamespace`. The resulting object therefore has no nested namespaces. Every attribute is a leaf stored under its dotted key, such as `model.classification.name`. `NamespaceOfFlat` and `LoadConfig` state this.
- `if parent_key` tests truthiness, so an empty key at the top level is absorbed. `NewKey("", sep, k)` is `k`, and a key `""` below an empty parent stays `""`. `JoinKeyTopLevel` therefore assumes a non-empty first key.

Parameters standing for what the model does not execute:
- Reading the CSV file is replaced by a `Table` value.
- Reading and enhancing an image (`preproc_image`) is the function `preproc: string -> I`.
- The YAML parser is replaced by a `Tree` value.
- `transform` and `target_transform` are `Option`s of functions.

## Model

| member | source | states |
|---|---|---|
| OrderedDict.Put | src/models/mvit_module.py:58-60 | writing a key sets its value; a present key keeps its place in the order, a new key goes last; a well-formed dictionary stays well-formed |
| OrderedDict.Items | src/models/mvit_module.py:47 | `d.items()` lists every key once, in insertion order, with its current value |
| OrderedDict.FromItems | src/models/mvit_module.py:50 | `dict(items)` is a well-formed dictionary |
| OrderedDict.PutAllConcat | src/models/mvit_module.py:47 | building from a list extended by `b` is building from the list and then writing `b` |
| OrderedDict.PutAllSnoc | src/models/mvit_module.py:48-49 | appending one pair is one more write of that pair |
| OrderedDict.PutAllHasKey | src/models/mvit_module.py:50 | a key is in `dict(items)` (over `d`) exactly when it was in `d` or is the key of some pair |
| OrderedDict.PutAllLastWins | src/models/mvit_module.py:50 | a key's value is the one of the last pair with that key, or its old value if no pair has it |
| OrderedDict.PutAllSize | src/models/mvit_module.py:50 | writing a list adds at most as many keys as it has pairs |
| OrderedDict.FromItemsOfItems | src/models/mvit_module.py:47-50 | `dict(d.items()) == d`, order included |
| OrderedDict.PutAllFromItems | src/models/mvit_module.py:47-50 | extending by the items of `dict(y)` gives the same dictionary as extending by `y` itself |
| OrderedDict.FirstOccurrences | src/models/mvit_module.py:50 | the keys of a list, each once, exactly those keys, in the order of first occurrence |
| OrderedDict.FirstOccurrencesOrder | src/models/mvit_module.py:50 | of any two keys in the list of first occurrences, the earlier one first occurs earlier in the input |
| OrderedDict.FromItemsKeyOrder | src/models/mvit_module.py:50 | `dict(items)` lists each key at the place of its first pair |
| OrderedDict.FromItemsValueOrigin | src/models/mvit_module.py:50 | every value of `dict(items)` comes from a pair with its key |
| MvitConfig.Flatten | src/models/mvit_module.py:42-50 | the reference definition: `dict` of the leaves paired with their joined key paths is a well-formed dictionary |
| MvitConfig.FlattenYamlAsDict | src/models/mvit_module.py:42-50 | the loop with its recursive calls returns exactly `Flatten(d, parent_key, sep)` |
| MvitConfig.LeafItemsOfNode | src/models/mvit_module.py:45-47 | a sub-mapping contributes its own leaves, keyed under the entry's new key |
| MvitConfig.LeafItemsOfLeaf | src/models/mvit_module.py:45-49 | a non-mapping value contributes one pair under the entry's new key |
| MvitConfig.LeafPathsReach | src/models/mvit_module.py:44-49 | the listed leaf paths are exactly the key paths that reach a leaf, with its value |
| MvitConfig.JoinKeyUnderParent | src/models/mvit_module.py:45 | below a non-empty parent key, a path's key is the parent, the separator and the path joined by the separator |
| MvitConfig.JoinKeyTopLevel | src/models/mvit_module.py:45 | with no parent key, a path whose first key is non-empty is stored under the keys joined by the separator |
| MvitConfig.FlattenKeys | src/models/mvit_module.py:42-50 | a key is in the result exactly when some path reaching a leaf is joined to it (both directions) |
| MvitConfig.FlattenTopLevelLeaf | src/models/mvit_module.py:45-49 | with no parent key, a top-level leaf keeps its own key |
| MvitConfig.FlattenReachedLeaf | src/models/mvit_module.py:45-49 | with no parent key, every leaf reached by a path whose first key is non-empty is present under `sep.join(path)` |
| MvitConfig.FlattenLastWins | src/models/mvit_module.py:50 | of the leaves joined to one key, the value of the last in document order wins |
| MvitConfig.FlattenValueIsLeaf | src/models/mvit_module.py:46-49 | every value of the result is a leaf of the document, reached by a path joined to its key |
| MvitConfig.FlattenUnderParent | src/models/mvit_module.py:45 | with a non-empty parent key, every key starts with the parent key and the separator |
| MvitConfig.FlattenEmptyMapping | src/models/mvit_module.py:46-47 | an empty sub-mapping adds no key |
| MvitConfig.FlattenSize | src/models/mvit_module.py:50 | the result has at most as many keys as the document has leaves |
| MvitConfig.FlattenKeyOrder | src/models/mvit_module.py:42-50 | the flattened keys come in the order of the first leaf, in document order, joined to each |
| MvitConfig.FlattenFlat | src/models/mvit_module.py:42-50 | flattening a dictionary of leaves returns it unchanged, order included |
| MvitConfig.FlattenIdempotent | src/models/mvit_module.py:42-50 | flattening a flattened dictionary again changes nothing, whatever the separators |
| MvitConfig.NamespaceOf | src/models/mvit_module.py:56-60 | the reference definition: the attributes set in turn form a well-formed dictionary |
| MvitConfig.NestedNamespace.constructor | src/models/mvit_module.py:54-60 | the new object is valid, its footprint is fresh and its attributes denote `NamespaceOf(dictionary)` |
| MvitConfig.NestedNamespace.AddEntry | src/models/mvit_module.py:57-60 | a mapping value becomes a new nested namespace and any other value is stored as it is; only that attribute changes |
| MvitConfig.NestedNamespace.SetAttr | src/models/mvit_module.py:58-60 | `__setattr__` stores that very attribute (the same sub-namespace object) under its key, setting or replacing it; the object stays valid and the footprint grows by the sub-namespace's only |
| MvitConfig.NamespaceOfItems | src/models/mvit_module.py:56-60 | the attributes are `dict` of the (key, attribute) pairs in document order |
| MvitConfig.NamespaceAttrs | src/models/mvit_module.py:56-60 | every key becomes an attribute holding its last value: a nested namespace for a mapping, the value itself otherwise |
| MvitConfig.NamespaceOnlyKeys | src/models/mvit_module.py:56 | only keys of the dictionary become attributes |
| MvitConfig.NamespaceOfFlat | src/models/mvit_module.py:57-60 | a dictionary of leaves gives a namespace with the same keys, in order, holding the plain values and no nested namespace |
| MvitConfig.LoadConfig | src/models/mvit_module.py:67-68 | the configuration object denotes the flattened document with every value stored plainly, and no attribute is a nested namespace |
| HealthData.LabelCode | src/datamodules/datasets/health.py:16 | a label codes to 0 exactly when it is "negative" and to 1 exactly when it is not |
| HealthData.EncodeLabels | src/datamodules/datasets/health.py:16 | one code per row, in row order, with 0 exactly for "negative" and 1 exactly for every other label |
| HealthData.Squeeze | src/datamodules/datasets/health.py:16 | a one-element vector becomes a 0-d tensor holding that element; any other length is kept as a vector |
| HealthData.ImageNames | src/datamodules/datasets/health.py:18-19 | the `image` column: one name per row, in row order |
| HealthData.LabelsOf | src/datamodules/datasets/health.py:14-18 | with a `label` column, the squeezed codes; without one, the list of image names |
| HealthData.ImageFile | src/datamodules/datasets/health.py:44 | an image path is the directory string followed directly by the name, with no separator |
| HealthData.PyIndex | src/datamodules/datasets/health.py:51 | an index is valid exactly in `[-n, n)`; a negative one counts from the end |
| HealthData.LabelAt | src/datamodules/datasets/health.py:51 | indexing the labels gives the element at the normalised index; a 0-d tensor has no element to index |
| HealthData.LabelledTarget | src/datamodules/datasets/health.py:16 | in a labelled file of other than one row, the label of row `i` is the code of that row's label |
| HealthData.OneRowTarget | src/datamodules/datasets/health.py:16 | in a labelled file of one row, indexing the labels always fails |
| HealthData.UnlabelledTarget | src/datamodules/datasets/health.py:18 | without a `label` column, the label of row `i` is that row's image name |
| HealthData.HealthDataset.constructor | src/datamodules/datasets/health.py:12-31 | with the defaults of no transforms and `load_ram` on, names and labels come from the table; with `load_ram` the cache holds, in row order, the preprocessed image of `img_path + name` for every row; without it, nothing |
| HealthData.HealthDataset.LoadImage | src/datamodules/datasets/health.py:40-44 | cached or not, the result is the preprocessed image of `image_path + names[idx]`, and an index out of range is an error in both branches |
| HealthData.HealthDataset.Len | src/datamodules/datasets/health.py:46-47 | with a label vector, the number of rows; for a 0-d tensor or a list of names, an error |
| HealthData.HealthDataset.GetItem | src/datamodules/datasets/health.py:49-56 | the image and label at `idx`, each transformed exactly when its transform is set and returned unchanged otherwise; it fails exactly when the image or the label index fails |

## Left out

- File and YAML I/O in `load_config` (`open`, `yaml.load`): the parsed document is a parameter.
- The error branch of `load_config` (src/models/mvit_module.py:70-74), which refers to names that are never defined and leaves `obj_cfg` unbound. Only the successful path is modelled.
- The `**kwargs` of `NestedNamespace.__init__`. The only caller passes none.
- `collections.MutableMapping` (flatten) and `dict` (NestedNamespace) are one notion here: a `Tree.Node`. The alias `collections.MutableMapping` no longer exists in Python 3.10 and later; the model assumes an interpreter where it does.
- Keys are strings. YAML also allows integer, boolean or null keys. At the top level such a key is kept as it is (`parent_key` is empty), and only `__setattr__` then rejects it for not being a string. Below a non-empty parent, `parent_key + sep + k` raises a type error. A falsy key such as `0`, `False` or `None` holding a mapping makes its children's parent key falsy, so they keep their own keys. None of this is modelled.
- A mapping's keys are distinct in every parsed document, as a Python `dict`'s are. A `Tree.Node` may repeat a key, and such a tree stands for no real input. For example, a Node with entries `a: {x: 1}` and `a: {y: 2}` flattens to `a.x` and `a.y`, while the parsed document keeps only `a: {y: 2}`.
- MvitConfig.FlattenYamlAsDict: requires a mapping. A document whose top level is not a mapping (an empty file parsed as `None`, a list or a scalar) makes `d.items()` raise `AttributeError` at src/models/mvit_module.py:44, and the model does not capture this failure.
- MvitConfig.LoadConfig: requires a mapping. For a document whose top level is not a mapping, flatten raises, and the `except yaml.YAMLError` clause does not catch that. The model does not capture this failure.
- Leaf values are an opaque type `L`. The model has no lists of mappings and no YAML scalar types.
- MvitConfig.NestedNamespace.SetAttr: an attribute name is any string. Attributes that `SimpleNamespace` itself provides are not modelled.
- Reading the label CSV (pandas) is a `Table` value.
- Image decoding (PIL), CLAHE contrast enhancement (cv2) and the RGB stacking in `preproc_image` (src/datamodules/datasets/health.py:33-38) form the opaque function `preproc`.
- HealthData.HealthDataset.constructor: `preproc` is total. In the source, reading an image that is missing or unreadable raises (src/datamodules/datasets/health.py:34), and with `load_ram` that fails the whole constructor. The model does not capture this failure.
- HealthData.HealthDataset.LoadImage: for the same reason, the model does not capture a failure to read the image file when the cache is off (src/datamodules/datasets/health.py:44). Its "fails exactly when the index is out of range" holds only for readable files.
- HealthData.HealthDataset.LoadImage: the model takes the image files as unchanging after construction, since `preproc` is a fixed function of the path. The source fills the cache once (src/datamodules/datasets/health.py:30) and never refreshes it. With `load_ram`, a file changed after construction still yields the old image (line 42), while without it the file is read again (line 44). The model cannot tell these apart, and its "cached or not, the preprocessed image of the path" holds only for files that do not change.
- HealthData.HealthDataset.constructor: without `load_ram` the source never creates `self.images` (src/datamodules/datasets/health.py:24-31). The model keeps an empty `images` instead. Nothing reads it in that case.
- HealthData.HealthDataset.GetItem: failures of reading an image, and exceptions raised by `transform` or `target_transform` (src/datamodules/datasets/health.py:53,55), are not modelled. Its "fails exactly when the image or the label index fails" holds only when neither happens.
- HealthData.HealthDataset.GetItem: `transform` maps an image to a value of the same type `I`. The real pipelines end in `ToTensor` and turn an image into a tensor. The model does not distinguish the transformed value's type from the image's.
- joblib's `Parallel` (src/datamodules/datasets/health.py:30) is an order-preserving sequential loop; the concurrency is not modelled.
- `.copy()` of a cached image (src/datamodules/datasets/health.py:42) is identity, since images are values here.
- The label tensor holds floats (`FloatTensor`). Codes are the integers 0 and 1, and indexing yields the code instead of a 0-d tensor.
- torchvision transforms are opaque functions; whether one is "set" is modelled as `Some`.
- Indices are integers. Slices, tensors and other index objects that Python would accept are not modelled.
- HealthData.HealthDataset.GetItem: one failure value covers the image-index error and the label-index error alike. The order in which Python raises them is not distinguished.
- The `__main__` demo script of `health.py` (lines 59-77) writes files and swallows errors. It is not part of the model.
- The training modules (`MVITLitModule`, the EfficientNet module) and the Lightning data module are not part of this model. They are floats, third-party code and framework glue.
