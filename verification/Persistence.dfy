/**
  Saving and loading the layers of an adapter
  (src/python/msp/persistence.py). Dictionaries that are walked in order are
  sequences of items with distinct names; JSON and the tensor container keep
  what they are given.
 */
module Persistence {
  import opened Wrappers
  import opened Sums
  import opened Matrices
  import opened PluginLayer

  // ---------------------------------------------------------------------
  // Files
  // ---------------------------------------------------------------------

  datatype Metadata = Metadata(rank: int, alpha: real, routingGateEnabled: bool)

  /** layers is None if the header carries no adapter metadata. */
  datatype File = File(tensors: map<string, Matrix>, layers: Option<map<string, Metadata>>)

  /** What of a layer belongs to the adapter; dtype is the element type of both matrices. */
  datatype Weights = Weights(
    a: Matrix,
    b: Matrix,
    rank: int,
    scaling: real,
    routingGateEnabled: bool,
    dtype: DType)
  {
    predicate WellFormed() { rank > 0 && a.rows == rank && b.cols == rank }

    ghost predicate SameAs(w: Weights) {
      && rank == w.rank && scaling == w.scaling && routingGateEnabled == w.routingGateEnabled && dtype == w.dtype
      && Same(a, w.a) && Same(b, w.b)
    }
  }

  function WeightsOf(layer: Layer): Weights
    reads layer
  {
    Weights(layer.a, layer.b, layer.rank, layer.scaling, layer.routingGateEnabled, layer.dtype)
  }

  ghost predicate Distinct<T>(items: seq<(string, T)>) {
    forall i, j | 0 <= i < |items| && 0 <= j < |items| && items[i].0 == items[j].0 :: i == j
  }

  function Names<T>(items: seq<(string, T)>): set<string> {
    set i | 0 <= i < |items| :: items[i].0
  }

  // ---------------------------------------------------------------------
  // Tensor keys
  // ---------------------------------------------------------------------

  const A_SUFFIX := ".plugin_matrix_A"
  const B_SUFFIX := ".plugin_matrix_B"

  function KeyA(name: string): string { name + A_SUFFIX }

  function KeyB(name: string): string { name + B_SUFFIX }

  lemma SameTail(s: string, t: string, u: string, v: string)
    requires s + u == t + v && |u| == |v|
    ensures s == t && u == v
  {
    assert (s + u)[..|s|] == s && (t + v)[..|s|] == t;
    assert (s + u)[|s|..] == u && (t + v)[|s|..] == v;
  }

  /** The keys in the file, by example. */
  lemma KeysByExample()
    ensures KeyA("q_proj") == "q_proj.plugin_matrix_A" && KeyB("q_proj") == "q_proj.plugin_matrix_B"
  {
  }

  /** No two tensors share a key, whatever dots or suffixes the names contain. */
  lemma KeysInjective(m: string, n: string)
    ensures KeyA(m) != KeyB(n)
    ensures KeyA(m) == KeyA(n) ==> m == n
    ensures KeyB(m) == KeyB(n) ==> m == n
  {
    assert A_SUFFIX[|A_SUFFIX| - 1] != B_SUFFIX[|B_SUFFIX| - 1];
    if KeyA(m) == KeyB(n) {
      SameTail(m, n, A_SUFFIX, B_SUFFIX);
    }
    if KeyA(m) == KeyA(n) {
      SameTail(m, n, A_SUFFIX, A_SUFFIX);
    }
    if KeyB(m) == KeyB(n) {
      SameTail(m, n, B_SUFFIX, B_SUFFIX);
    }
  }

  // ---------------------------------------------------------------------
  // Saving
  // ---------------------------------------------------------------------

  /** The entries of one layer in a file under construction. */
  ghost predicate Holds(tensors: map<string, Matrix>, layers: map<string, Metadata>, name: string, w: Weights) {
    && KeyA(name) in tensors && tensors[KeyA(name)] == w.a
    && KeyB(name) in tensors && tensors[KeyB(name)] == w.b
    && name in layers && layers[name] == Metadata(w.rank, w.scaling * w.rank as real, w.routingGateEnabled)
  }

  lemma OthersStillHeld(tensors: map<string, Matrix>, layers: map<string, Metadata>, name: string, w: Weights,
                        other: string, a: Matrix, b: Matrix, meta: Metadata)
    requires Holds(tensors, layers, name, w) && name != other
    ensures Holds(tensors[KeyA(other) := a][KeyB(other) := b], layers[other := meta], name, w)
  {
    KeysInjective(name, other);
    KeysInjective(other, name);
  }

  function TensorKeys<T>(items: seq<(string, T)>): set<string> {
    (set i | 0 <= i < |items| :: KeyA(items[i].0)) + (set i | 0 <= i < |items| :: KeyB(items[i].0))
  }

  /** The file holds every item, two tensors for each, and nothing besides. */
  ghost predicate IsFileOf(file: File, items: seq<(string, Weights)>) {
    && file.layers.Some? && file.layers.value.Keys == Names(items)
    && file.tensors.Keys == TensorKeys(items) && |file.tensors| == 2 * |items|
    && forall i | 0 <= i < |items| :: Holds(file.tensors, file.layers.value, items[i].0, items[i].1)
  }

  function Put(file: File, name: string, w: Weights): File
    requires file.layers.Some?
  {
    File(file.tensors[KeyA(name) := w.a][KeyB(name) := w.b],
         Some(file.layers.value[name := Metadata(w.rank, w.scaling * w.rank as real, w.routingGateEnabled)]))
  }

  lemma FreshKeys<T>(items: seq<(string, T)>, name: string)
    requires name !in Names(items)
    ensures KeyA(name) !in TensorKeys(items) && KeyB(name) !in TensorKeys(items)
  {
    forall i | 0 <= i < |items|
      ensures KeyA(items[i].0) != KeyA(name) && KeyB(items[i].0) != KeyA(name)
      ensures KeyA(items[i].0) != KeyB(name) && KeyB(items[i].0) != KeyB(name)
    {
      KeysInjective(items[i].0, name);
      KeysInjective(name, items[i].0);
      assert items[i].0 in Names(items);
    }
  }

  lemma NamesPush<T>(items: seq<(string, T)>, item: (string, T))
    ensures Names(items + [item]) == Names(items) + {item.0}
    ensures TensorKeys(items + [item]) == TensorKeys(items) + {KeyA(item.0), KeyB(item.0)}
  {
    var after := items + [item];
    assert forall i | 0 <= i < |items| :: items[i] == after[i];
    assert after[|items|] == item;
  }

  lemma PutHolds(file: File, name: string, w: Weights)
    requires file.layers.Some?
    ensures Holds(Put(file, name, w).tensors, Put(file, name, w).layers.value, name, w)
  {
    KeysInjective(name, name);
  }

  lemma PutTwo(m: map<string, Matrix>, j: string, a: Matrix, k: string, b: Matrix)
    requires j != k && j !in m && k !in m
    ensures m[j := a][k := b].Keys == m.Keys + {j, k}
    ensures |m[j := a][k := b]| == |m| + 2
  {
  }

  lemma PutTensors(file: File, items: seq<(string, Weights)>, name: string, w: Weights)
    requires file.layers.Some? && file.tensors.Keys == TensorKeys(items) && name !in Names(items)
    ensures Put(file, name, w).tensors.Keys == TensorKeys(items + [(name, w)])
    ensures |Put(file, name, w).tensors| == |file.tensors| + 2
  {
    FreshKeys(items, name);
    NamesPush(items, (name, w));
    KeysInjective(name, name);
    PutTwo(file.tensors, KeyA(name), w.a, KeyB(name), w.b);
  }

  lemma PutNames(file: File, items: seq<(string, Weights)>, name: string, w: Weights)
    requires file.layers.Some? && file.layers.value.Keys == Names(items)
    ensures Put(file, name, w).layers.value.Keys == Names(items + [(name, w)])
  {
    NamesPush(items, (name, w));
  }

  /** Adding a layer under a new name overwrites nothing. */
  lemma PutKeepsFile(file: File, items: seq<(string, Weights)>, name: string, w: Weights)
    requires IsFileOf(file, items) && name !in Names(items)
    ensures IsFileOf(Put(file, name, w), items + [(name, w)])
  {
    var after, all := Put(file, name, w), items + [(name, w)];
    PutTensors(file, items, name, w);
    PutNames(file, items, name, w);
    forall i | 0 <= i < |all| ensures Holds(after.tensors, after.layers.value, all[i].0, all[i].1) {
      if i < |items| {
        assert all[i] == items[i] && items[i].0 in Names(items);
        assert Holds(file.tensors, file.layers.value, items[i].0, items[i].1);
        OthersStillHeld(file.tensors, file.layers.value, items[i].0, items[i].1,
                        name, w.a, w.b, after.layers.value[name]);
      } else {
        PutHolds(file, name, w);
      }
    }
  }

  /** A value in the dictionary to save: only the first kind is accepted. */
  datatype Module = Plugin(layer: Layer) | Foreign(typeName: string)

  datatype SaveError = NothingToSave | NotAPlugin(name: string, typeName: string)

  predicate AllPlugins(items: seq<(string, Module)>) {
    forall i | 0 <= i < |items| :: items[i].1.Plugin?
  }

  function LayersIn(items: seq<(string, Module)>): set<Layer> {
    set i | 0 <= i < |items| && items[i].1.Plugin? :: items[i].1.layer
  }

  ghost predicate AreWeights(items: seq<(string, Module)>, saved: seq<(string, Weights)>)
    reads LayersIn(items)
  {
    && |saved| == |items| && AllPlugins(items)
    && forall i | 0 <= i < |items| :: saved[i] == (items[i].0, WeightsOf(items[i].1.layer))
  }

  lemma NewName(items: seq<(string, Module)>, k: nat, saved: seq<(string, Weights)>)
    requires Distinct(items) && k < |items| && AreWeights(items[..k], saved)
    ensures items[k].0 !in Names(saved)
  {
    assert forall i | 0 <= i < k :: items[..k][i].0 == saved[i].0;
  }

  lemma WeightsPush(items: seq<(string, Module)>, k: nat, saved: seq<(string, Weights)>)
    requires k < |items| && AreWeights(items[..k], saved) && items[k].1.Plugin?
    ensures AreWeights(items[..k + 1], saved + [(items[k].0, WeightsOf(items[k].1.layer))])
  {
    var all := saved + [(items[k].0, WeightsOf(items[k].1.layer))];
    forall i | 0 <= i < k
      ensures items[..k + 1][i].1.Plugin? && all[i] == (items[..k + 1][i].0, WeightsOf(items[..k + 1][i].1.layer))
    {
      assert items[..k + 1][i] == items[..k][i];
    }
  }

  /** saved names what the file was written from. */
  method SaveAdapter(items: seq<(string, Module)>)
    returns (r: Result<File, SaveError>, ghost saved: seq<(string, Weights)>)
    requires Distinct(items)
    ensures r == Err(NothingToSave) <==> items == []
    ensures items != [] ==> (r.Ok? <==> AllPlugins(items))
    ensures r.Ok? ==> AreWeights(items, saved) && IsFileOf(r.value, saved)
    ensures r.Err? && items != [] ==> exists i ::
      && 0 <= i < |items| && items[i].1.Foreign? && AllPlugins(items[..i])
      && r.error == NotAPlugin(items[i].0, items[i].1.typeName)
  {
    saved := [];
    if items == [] {
      r := Err(NothingToSave);
      return;
    }
    var file := File(map[], Some(map[]));
    for k := 0 to |items|
      invariant AreWeights(items[..k], saved) && IsFileOf(file, saved)
    {
      var (name, item) := items[k];
      if item.Foreign? {
        r := Err(NotAPlugin(name, item.typeName));
        return;
      }
      var w := WeightsOf(item.layer);
      NewName(items, k, saved);
      PutKeepsFile(file, saved, name, w);
      file := Put(file, name, w);
      WeightsPush(items, k, saved);
      saved := saved + [(name, w)];
    }
    assert items[..|items|] == items;
    r := Ok(file);
  }

  // ---------------------------------------------------------------------
  // Loading
  // ---------------------------------------------------------------------

  datatype LoadError =
    | FileNotFound
    | NoAdapterMetadata
    | NamesDiffer(missing: set<string>, extra: set<string>)
    | BadRank(name: string)
    | MissingTensor(key: string)
    | ShapeMismatch(key: string)

  /** copy_ accepts a source that has the target's size, or size one, in each dimension. */
  predicate Broadcastable(src: Matrix, rows: nat, cols: nat) {
    (src.rows == rows || src.rows == 1) && (src.cols == cols || src.cols == 1)
  }

  function Broadcast(src: Matrix, rows: nat, cols: nat): (m: Matrix)
    requires Broadcastable(src, rows, cols)
    ensures m.rows == rows && m.cols == cols
    ensures src.rows == rows && src.cols == cols ==> Same(m, src)
  {
    Matrix(rows, cols, (i, j) => src.at(if src.rows == 1 then 0 else i, if src.cols == 1 then 0 else j))
  }

  function CopyFault(tensors: map<string, Matrix>, key: string, rows: nat, cols: nat): Option<LoadError> {
    if key !in tensors then Some(MissingTensor(key))
    else if Broadcastable(tensors[key], rows, cols) then None
    else Some(ShapeMismatch(key))
  }

  /** Why one layer cannot be restored. */
  function LayerFault(file: File, name: string, base: Linear): Option<LoadError>
    requires file.layers.Some? && name in file.layers.value
  {
    var rank := file.layers.value[name].rank;
    if rank <= 0 then Some(BadRank(name)) else
      var faultA := CopyFault(file.tensors, KeyA(name), rank, base.weight.cols);
      if faultA.Some? then faultA else CopyFault(file.tensors, KeyB(name), base.weight.rows, rank)
  }

  /** What each error about a layer means, read off the file and the base. */
  predicate Explains(file: File, name: string, base: Linear, error: LoadError)
    requires file.layers.Some? && name in file.layers.value
  {
    var rank := file.layers.value[name].rank;
    match error
    case BadRank(n) => n == name && rank <= 0
    case MissingTensor(key) => key in {KeyA(name), KeyB(name)} && key !in file.tensors
    case ShapeMismatch(key) =>
      && key in {KeyA(name), KeyB(name)} && key in file.tensors && rank > 0
      && var t := file.tensors[key];
         if key == KeyA(name) then (t.rows != rank && t.rows != 1) || (t.cols != base.weight.cols && t.cols != 1)
         else (t.rows != base.weight.rows && t.rows != 1) || (t.cols != rank && t.cols != 1)
    case _ => false
  }

  /** Every error is explained, and a layer with an explicable error is not restored. */
  lemma FaultIsExplained(file: File, name: string, base: Linear)
    requires file.layers.Some? && name in file.layers.value
    ensures LayerFault(file, name, base).Some? ==> Explains(file, name, base, LayerFault(file, name, base).value)
    ensures LayerFault(file, name, base).None? ==> forall error :: !Explains(file, name, base, error)
  {
    KeysInjective(name, name);
  }

  /** The file names no element type: the parameters get that of the base, and copy_ converts. */
  function Restored(file: File, name: string, base: Linear): Weights
    requires file.layers.Some? && name in file.layers.value && LayerFault(file, name, base).None?
  {
    var meta := file.layers.value[name];
    Weights(Broadcast(file.tensors[KeyA(name)], meta.rank, base.weight.cols),
            Broadcast(file.tensors[KeyB(name)], base.weight.rows, meta.rank),
            meta.rank, meta.alpha / meta.rank as real, meta.routingGateEnabled, base.dtype)
  }

  /** Loading stops at the first layer that cannot be restored. */
  ghost predicate IsFirstFault(file: File, bases: seq<(string, Linear)>, error: LoadError)
    requires file.layers.Some? && file.layers.value.Keys == Names(bases)
  {
    exists i :: 0 <= i < |bases| && LayerFault(file, bases[i].0, bases[i].1) == Some(error)
      && forall j | 0 <= j < i :: LayerFault(file, bases[j].0, bases[j].1).None?
  }

  ghost predicate IsRestored(layer: Layer, file: File, name: string, base: Linear)
    reads layer
  {
    && file.layers.Some? && name in file.layers.value && LayerFault(file, name, base).None?
    && layer.Valid() && layer.base == base && layer.gradGateHandles == []
    && WeightsOf(layer) == Restored(file, name, base)
  }

  predicate NoFault(file: File, bases: seq<(string, Linear)>)
    requires file.layers.Some? && file.layers.value.Keys == Names(bases)
  {
    forall i | 0 <= i < |bases| :: LayerFault(file, bases[i].0, bases[i].1).None?
  }

  method RestoreLayer(file: File, name: string, base: Linear, kaiming: Mat) returns (r: Result<Layer, LoadError>)
    requires file.layers.Some? && name in file.layers.value
    ensures match LayerFault(file, name, base)
      case Some(error) => r == Err(error)
      case None => r.Ok? && fresh(r.value) && IsRestored(r.value, file, name, base)
  {
    var meta := file.layers.value[name];
    var created := Layer.Create(base, meta.rank, meta.alpha, None, kaiming);
    if created.Err? {
      return Err(BadRank(name));
    }
    var layer := created.value;
    var fault := CopyFault(file.tensors, KeyA(name), layer.a.rows, layer.a.cols);
    if fault.Some? {
      return Err(fault.value);
    }
    layer.a := Broadcast(file.tensors[KeyA(name)], layer.a.rows, layer.a.cols);
    fault := CopyFault(file.tensors, KeyB(name), layer.b.rows, layer.b.cols);
    if fault.Some? {
      return Err(fault.value);
    }
    layer.b := Broadcast(file.tensors[KeyB(name)], layer.b.rows, layer.b.cols);
    layer.routingGateEnabled := meta.routingGateEnabled;
    r := Ok(layer);
  }

  method RestoreAll(file: File, bases: seq<(string, Linear)>, kaiming: Mat)
    returns (r: Result<map<string, Layer>, LoadError>)
    requires Distinct(bases) && file.layers.Some? && file.layers.value.Keys == Names(bases)
    ensures r.Ok? <==> NoFault(file, bases)
    ensures r.Err? ==> IsFirstFault(file, bases, r.error)
    ensures r.Err? ==> !r.error.FileNotFound? && !r.error.NoAdapterMetadata?
    ensures r.Ok? ==> r.value.Keys == Names(bases)
    ensures r.Ok? ==> forall i | 0 <= i < |bases| ::
      fresh(r.value[bases[i].0]) && IsRestored(r.value[bases[i].0], file, bases[i].0, bases[i].1)
  {
    var result: map<string, Layer> := map[];
    for k := 0 to |bases|
      invariant forall n | n in result :: n in Names(bases)
      invariant forall i | 0 <= i < k ::
        && bases[i].0 in result && fresh(result[bases[i].0])
        && IsRestored(result[bases[i].0], file, bases[i].0, bases[i].1)
    {
      var (name, base) := bases[k];
      var restored := RestoreLayer(file, name, base, kaiming);
      if restored.Err? {
        return Err(restored.error);
      }
      result := result[name := restored.value];
    }
    r := Ok(result);
  }

  /** kaiming stands for the random initial values that the copies overwrite. */
  method LoadAdapter(source: Option<File>, bases: seq<(string, Linear)>, kaiming: Mat)
    returns (r: Result<map<string, Layer>, LoadError>)
    requires Distinct(bases)
    ensures r == Err(FileNotFound) <==> source.None?
    ensures r == Err(NoAdapterMetadata) <==> source.Some? && source.value.layers.None?
    ensures source.Some? && source.value.layers.Some? ==>
      var file, saved, requested := source.value, source.value.layers.value.Keys, Names(bases);
      if saved != requested then r == Err(NamesDiffer(saved - requested, requested - saved))
      else (r.Ok? <==> NoFault(file, bases)) && (r.Err? ==> IsFirstFault(file, bases, r.error))
    ensures r.Ok? ==> r.value.Keys == Names(bases)
    ensures r.Ok? ==> forall i | 0 <= i < |bases| ::
      fresh(r.value[bases[i].0]) && IsRestored(r.value[bases[i].0], source.value, bases[i].0, bases[i].1)
  {
    if source.None? {
      return Err(FileNotFound);
    }
    var file := source.value;
    if file.layers.None? {
      return Err(NoAdapterMetadata);
    }
    var saved, requested := file.layers.value.Keys, Names(bases);
    if saved != requested {
      return Err(NamesDiffer(saved - requested, requested - saved));
    }
    r := RestoreAll(file, bases, kaiming);
  }

  // ---------------------------------------------------------------------
  // Round trip
  // ---------------------------------------------------------------------

  /** The base layers to which saved weights can be attached: copy_ stretches a dimension of size one. */
  predicate Attachable(w: Weights, base: Linear) {
    (w.a.cols == base.weight.cols || w.a.cols == 1) && (w.b.rows == base.weight.rows || w.b.rows == 1)
  }

  lemma RecoverScaling(scaling: real, rank: real)
    requires rank > 0.0
    ensures scaling * rank / rank == scaling
  {
  }

  /** The base layers of the shape that the saved layer was trained on. */
  predicate SameShape(w: Weights, base: Linear) {
    w.a.cols == base.weight.cols && w.b.rows == base.weight.rows
  }

  predicate AllWellFormed(items: seq<(string, Weights)>) {
    forall i | 0 <= i < |items| :: items[i].1.WellFormed()
  }

  /** The base layers of that shape and of the adapter's own element type. */
  predicate Matches(w: Weights, base: Linear) {
    SameShape(w, base) && w.dtype == base.dtype
  }

  predicate AllMatch(items: seq<(string, Weights)>, bases: seq<(string, Linear)>) {
    forall i, j | 0 <= i < |items| && 0 <= j < |bases| && items[i].0 == bases[j].0 :: Matches(items[i].1, bases[j].1)
  }

  predicate AllAttachable(items: seq<(string, Weights)>, bases: seq<(string, Linear)>) {
    forall i, j | 0 <= i < |items| && 0 <= j < |bases| && items[i].0 == bases[j].0 ::
      Attachable(items[i].1, bases[j].1)
  }

  /** One saved layer can be restored exactly on the bases it is attachable to. */
  lemma LayerLoadableIff(file: File, name: string, w: Weights, base: Linear)
    requires file.layers.Some? && Holds(file.tensors, file.layers.value, name, w) && w.WellFormed()
    ensures LayerFault(file, name, base).None? <==> Attachable(w, base)
  {
  }

  /** Loading the layer on the base gives back what was saved. */
  ghost predicate Recovers(file: File, name: string, w: Weights, base: Linear)
    requires file.layers.Some? && name in file.layers.value
  {
    LayerFault(file, name, base).None? && Restored(file, name, base).SameAs(w)
  }

  /**
    On the other bases it can be attached to, a layer comes back stretched or
    converted: as another layer, without an error.
   */
  lemma LayerRoundTripIff(file: File, name: string, w: Weights, base: Linear)
    requires file.layers.Some? && Holds(file.tensors, file.layers.value, name, w) && w.WellFormed()
    ensures Attachable(w, base) ==> LayerFault(file, name, base).None?
    ensures Recovers(file, name, w, base) <==> Matches(w, base)
  {
    LayerLoadableIff(file, name, w, base);
    RecoverScaling(w.scaling, w.rank as real);
  }

  /** Stretching repeats the only column of A, or the only row of B. */
  lemma StretchedEntries(file: File, name: string, w: Weights, base: Linear, r: nat, i: nat, k: nat)
    requires file.layers.Some? && Holds(file.tensors, file.layers.value, name, w)
    requires w.WellFormed() && Attachable(w, base)
    requires r < w.rank && i < base.weight.rows && k < base.weight.cols
    ensures LayerFault(file, name, base).None?
    ensures Restored(file, name, base).a.at(r, k) == w.a.at(r, if w.a.cols == 1 then 0 else k)
    ensures Restored(file, name, base).b.at(i, r) == w.b.at(if w.b.rows == 1 then 0 else i, r)
  {
    LayerLoadableIff(file, name, w, base);
  }

  /**
    With the saved names, loading succeeds exactly if every saved layer can be
    attached to its namesake.
   */
  lemma LoadableIff(file: File, items: seq<(string, Weights)>, bases: seq<(string, Linear)>)
    requires IsFileOf(file, items) && Names(bases) == Names(items)
    requires AllWellFormed(items)
    ensures NoFault(file, bases) <==> AllAttachable(items, bases)
  {
    forall i, j | 0 <= i < |items| && 0 <= j < |bases| && items[i].0 == bases[j].0
      ensures LayerFault(file, bases[j].0, bases[j].1).None? <==> Attachable(items[i].1, bases[j].1)
    {
      LayerLoadableIff(file, items[i].0, items[i].1, bases[j].1);
    }
    forall j | 0 <= j < |bases| ensures exists i :: 0 <= i < |items| && items[i].0 == bases[j].0 {
      assert bases[j].0 in Names(items);
    }
  }

  lemma Namesake(bases: seq<(string, Linear)>, name: string, names: set<string>) returns (j: nat)
    requires name in names && Names(bases) == names
    ensures j < |bases| && bases[j].0 == name
  {
    j :| 0 <= j < |bases| && bases[j].0 == name;
  }

  ghost predicate AllRecovered(file: File, items: seq<(string, Weights)>, bases: seq<(string, Linear)>)
    requires file.layers.Some? && file.layers.value.Keys == Names(bases)
  {
    forall i, j | 0 <= i < |items| && 0 <= j < |bases| && items[i].0 == bases[j].0 ::
      Recovers(file, bases[j].0, items[i].1, bases[j].1)
  }

  /**
    With the saved names, loading succeeds and gives back every layer exactly
    if each base has the shape and the element type of its namesake.
   */
  lemma RoundTripIff(file: File, items: seq<(string, Weights)>, bases: seq<(string, Linear)>)
    requires IsFileOf(file, items) && Names(bases) == Names(items) && AllWellFormed(items)
    ensures NoFault(file, bases) && AllRecovered(file, items, bases) <==> AllMatch(items, bases)
  {
    LoadableIff(file, items, bases);
    forall i, j | 0 <= i < |items| && 0 <= j < |bases| && items[i].0 == bases[j].0
      ensures Recovers(file, bases[j].0, items[i].1, bases[j].1) <==> Matches(items[i].1, bases[j].1)
    {
      LayerRoundTripIff(file, items[i].0, items[i].1, bases[j].1);
    }
  }

  /** A file with one layer, named q, to be loaded on one base. */
  lemma OneLayerFile(w: Weights, base: Linear)
    returns (file: File, items: seq<(string, Weights)>, bases: seq<(string, Linear)>)
    requires w.WellFormed()
    ensures items == [("q", w)] && bases == [("q", base)]
    ensures IsFileOf(file, items) && AllWellFormed(items) && Names(bases) == Names(items)
    ensures NoFault(file, bases) <==> Attachable(w, base)
    ensures AllRecovered(file, items, bases) <==> Matches(w, base)
  {
    items := [] + [("q", w)];
    bases := [("q", base)];
    var empty := File(map[], Some(map[]));
    PutKeepsFile(empty, [], "q", w);
    file := Put(empty, "q", w);
    assert items[0].0 == "q" && bases[0].0 == "q";
    LoadableIff(file, items, bases);
    LayerRoundTripIff(file, "q", w, base);
  }

  /** Equal names do not suffice: a layer saved with inputs of one width, loaded on a base of another. */
  lemma WidthMatters(saved: nat, width: nat)
    returns (file: File, items: seq<(string, Weights)>, bases: seq<(string, Linear)>)
    ensures IsFileOf(file, items) && AllWellFormed(items) && Names(bases) == Names(items)
    ensures |items| == |bases| == 1 && items[0].1.a.cols == saved && bases[0].1.weight.cols == width
    ensures NoFault(file, bases) <==> saved == width || saved == 1
    ensures AllRecovered(file, items, bases) <==> saved == width
  {
    var w := Weights(Zeros(1, saved), Zeros(1, 1), 1, 2.0, true, Float32);
    file, items, bases := OneLayerFile(w, Linear(Zeros(1, width), None, Float32));
  }

  /**
    A Float32 adapter of rank 2 on a Float16 base with 4 outputs and 3 inputs:
    it loads on that very base, as a Float16 adapter of half the size.
   */
  lemma SilentlyConverted()
    returns (file: File, items: seq<(string, Weights)>, bases: seq<(string, Linear)>)
    ensures IsFileOf(file, items) && AllWellFormed(items) && Names(bases) == Names(items)
    ensures |items| == |bases| == 1 && SameShape(items[0].1, bases[0].1)
    ensures NoFault(file, bases) && !AllRecovered(file, items, bases)
    ensures items[0].1.dtype == Float32 && AdapterBytes(bases[0].1, 2, items[0].1.dtype) == 56
    ensures
      var dtype := Restored(file, bases[0].0, bases[0].1).dtype;
      dtype == Float16 && AdapterBytes(bases[0].1, 2, dtype) == 28
  {
    var w := Weights(Zeros(2, 3), Zeros(4, 2), 2, 8.0, true, Float32);
    file, items, bases := OneLayerFile(w, Linear(Zeros(4, 3), None, Float16));
  }

  /** A saved width of one is stretched to a base of width three, and nobody is told. */
  lemma SilentlyStretched()
    returns (file: File, items: seq<(string, Weights)>, bases: seq<(string, Linear)>)
    ensures IsFileOf(file, items) && AllWellFormed(items) && Names(bases) == Names(items)
    ensures NoFault(file, bases) && !AllRecovered(file, items, bases)
    ensures
      |items| == |bases| == 1 &&
      items[0].1.a.cols == 1 && Restored(file, bases[0].0, bases[0].1).a.cols == 3
  {
    file, items, bases := WidthMatters(1, 3);
  }

  lemma SavedLayersWellFormed(items: seq<(string, Module)>, current: seq<(string, Weights)>)
    requires AreWeights(items, current) && forall layer | layer in LayersIn(items) :: layer.Valid()
    ensures AllWellFormed(current)
  {
    forall i | 0 <= i < |items| ensures current[i].1.WellFormed() {
      assert items[i].1.layer in LayersIn(items);
    }
  }

  /**
    A save followed by a load on the same names, where current names what the
    layers hold: everything comes back if and only if the bases match.
   */
  method SaveAndLoad(items: seq<(string, Module)>, ghost current: seq<(string, Weights)>,
                     bases: seq<(string, Linear)>, kaiming: Mat)
    returns (r: Result<map<string, Layer>, LoadError>)
    requires items != [] && Distinct(items) && Distinct(bases) && AreWeights(items, current)
    requires forall layer | layer in LayersIn(items) :: layer.Valid()
    requires Names(bases) == Names(current)
    ensures r.Ok? <==> AllAttachable(current, bases)
    ensures r.Ok? ==> r.value.Keys == Names(current)
    ensures r.Ok? ==> forall i | 0 <= i < |current| :: fresh(r.value[current[i].0])
    ensures AllMatch(current, bases) <==>
      r.Ok? && forall i | 0 <= i < |current| :: WeightsOf(r.value[current[i].0]).SameAs(current[i].1)
  {
    SavedLayersWellFormed(items, current);
    var file, saved := SaveAdapter(items);
    assert saved == current;
    LoadableIff(file.value, current, bases);
    RoundTripIff(file.value, current, bases);
    r := LoadAdapter(Some(file.value), bases, kaiming);
    if r.Ok? {
      forall i, j | 0 <= i < |current| && 0 <= j < |bases| && current[i].0 == bases[j].0
        ensures fresh(r.value[current[i].0])
        ensures WeightsOf(r.value[current[i].0]).SameAs(current[i].1) <==> Matches(current[i].1, bases[j].1)
      {
        LayerRoundTripIff(file.value, current[i].0, current[i].1, bases[j].1);
      }
      forall i | 0 <= i < |current| ensures exists j :: 0 <= j < |bases| && bases[j].0 == current[i].0 {
        var j := Namesake(bases, current[i].0, Names(current));
      }
    }
  }
}
