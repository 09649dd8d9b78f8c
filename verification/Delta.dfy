/**
 The structural comparison of delta.go.

 newResourceDelta unrolls one scheme over the fields of the spec: a struct pointer is
 reported where exactly one side is nil and entered where neither is, a scalar pointer where
 its nil-ness or its value differs, a list where its length or its contents differ, the tags
 where their merged forms differ. The scheme is a walk over a shape; the method in
 ResourceDelta does the unrolled comparison and is proved to record what the walk says.
 */
module Delta {
  import opened Nullable
  import opened AckTags
  import opened Shapes

  /** The components of the dotted paths. */
  datatype Name =
    | Spec
    | AccountRecoverySetting | RecoveryMechanisms
    | AdminCreateUserConfig | AllowAdminCreateUserOnly | InviteMessageTemplate
    | EmailMessage | EmailSubject | SMSMessage | UnusedAccountValidityDays
    | AliasAttributes
    | AutoVerifiedAttributes
    | DeletionProtection
    | DeviceConfiguration | ChallengeRequiredOnNewDevice | DeviceOnlyRememberedOnUserPrompt
    | EmailConfiguration | ConfigurationSet | EmailSendingAccount | From | ReplyToEmailAddress | SourceARN
    | PoolName // "Name" in the dotted path
    | Policies | PasswordPolicy | MinimumLength | RequireLowercase | RequireNumbers | RequireSymbols
    | RequireUppercase | TemporaryPasswordValidityDays
    | Schema
    | Tags
    | UsernameAttributes
    | UsernameConfiguration | CaseSensitive

  type Path = seq<Name>

  /** A value as delta.Add records it: nil, a scalar, a list, a tag map, or a struct with its fields. */
  datatype Tree =
    | Nil
    | Str(text: string)
    | Bool(flag: bool)
    | Int(number: int64)
    | Strs(strs: seq<string>)
    | Mechanisms(mechanisms: seq<RecoveryOption>)
    | Attributes(attributes: seq<SchemaAttribute>)
    | TagMap(tags: TagValues)
    | Node(children: seq<Tree>)

  datatype Kind = StrPointer | BoolPointer | IntPointer | StrList | MechanismList | AttributeList | TagsOf

  datatype Shape = Leaf(kind: Kind) | Struct(fields: seq<Field>)

  datatype Field = Field(name: Name, shape: Shape)

  datatype Difference = Difference(path: Path, a: Tree, b: Tree)

  /** The list comparisons of the libraries: SliceStringPEqual and the semantic DeepEqual. */
  datatype Library = Library(
    strings: (seq<string>, seq<string>) -> bool,
    mechanisms: (seq<RecoveryOption>, seq<RecoveryOption>) -> bool,
    attributes: (seq<SchemaAttribute>, seq<SchemaAttribute>) -> bool)

  ghost predicate Reflexive(lib: Library) {
    && (forall x :: lib.strings(x, x))
    && (forall x :: lib.mechanisms(x, x))
    && (forall x :: lib.attributes(x, x))
  }

  ghost predicate Symmetric(lib: Library) {
    && (forall x, y :: lib.strings(x, y) == lib.strings(y, x))
    && (forall x, y :: lib.mechanisms(x, y) == lib.mechanisms(y, x))
    && (forall x, y :: lib.attributes(x, y) == lib.attributes(y, x))
  }

  predicate ConformsLeaf(kind: Kind, t: Tree) {
    match kind
    case StrPointer => t.Nil? || t.Str?
    case BoolPointer => t.Nil? || t.Bool?
    case IntPointer => t.Nil? || t.Int?
    case StrList => t.Nil? || t.Strs?
    case MechanismList => t.Nil? || t.Mechanisms?
    case AttributeList => t.Nil? || t.Attributes?
    case TagsOf => t.TagMap?
  }

  predicate Conforms(shape: Shape, t: Tree) {
    match shape
    case Leaf(kind) => ConformsLeaf(kind, t)
    case Struct(fs) =>
      t.Nil? || (t.Node? && |t.children| == |fs| &&
                 forall i | 0 <= i < |fs| :: Conforms(fs[i].shape, t.children[i]))
  }

  function Len(t: Tree): nat {
    match t
    case Strs(s) => |s|
    case Mechanisms(s) => |s|
    case Attributes(s) => |s|
    case _ => 0
  }

  predicate SameList(lib: Library, a: Tree, b: Tree) {
    match (a, b)
    case (Strs(x), Strs(y)) => lib.strings(x, y)
    case (Mechanisms(x), Mechanisms(y)) => lib.mechanisms(x, y)
    case (Attributes(x), Attributes(y)) => lib.attributes(x, y)
    case _ => false
  }

  predicate LeafDiffers(lib: Library, kind: Kind, a: Tree, b: Tree)
    requires ConformsLeaf(kind, a) && ConformsLeaf(kind, b)
  {
    match kind
    case StrPointer => a != b
    case BoolPointer => a != b
    case IntPointer => a != b
    case StrList => Len(a) != Len(b) || (Len(a) > 0 && !SameList(lib, a, b))
    case MechanismList => Len(a) != Len(b) || (Len(a) > 0 && !SameList(lib, a, b))
    case AttributeList => Len(a) != Len(b) || (Len(a) > 0 && !SameList(lib, a, b))
    case TagsOf => ToTags(a.tags) != ToTags(b.tags)
  }

  /** The differences between two values of a shape found at a path. */
  function Diff(lib: Library, shape: Shape, path: Path, a: Tree, b: Tree): seq<Difference>
    requires Conforms(shape, a) && Conforms(shape, b)
    decreases shape, 1
  {
    match shape
    case Leaf(kind) => if LeafDiffers(lib, kind, a, b) then [Difference(path, a, b)] else []
    case Struct(fs) =>
      if a.Nil? != b.Nil? then [Difference(path, a, b)]
      else if a.Nil? then []
      else DiffUpTo(lib, fs, |fs|, path, a.children, b.children)
  }

  /** The differences in the first k fields. */
  function DiffUpTo(lib: Library, fs: seq<Field>, k: nat, path: Path, a: seq<Tree>, b: seq<Tree>): seq<Difference>
    requires k <= |fs| == |a| == |b|
    requires forall i | 0 <= i < |fs| :: Conforms(fs[i].shape, a[i]) && Conforms(fs[i].shape, b[i])
    decreases Struct(fs), 0, k
  {
    if k == 0 then []
    else DiffUpTo(lib, fs, k - 1, path, a, b) +
         Diff(lib, fs[k - 1].shape, path + [fs[k - 1].name], a[k - 1], b[k - 1])
  }

  /** No two fields of a struct share a name. */
  predicate WellShaped(shape: Shape) {
    match shape
    case Leaf(_) => true
    case Struct(fs) =>
      && (forall i, j | 0 <= i < j < |fs| :: fs[i].name != fs[j].name)
      && (forall i | 0 <= i < |fs| :: WellShaped(fs[i].shape))
  }

  // ---- Where differences are ----

  lemma {:induction false} PathsExtend(lib: Library, shape: Shape, path: Path, a: Tree, b: Tree)
    requires Conforms(shape, a) && Conforms(shape, b)
    ensures forall d <- Diff(lib, shape, path, a, b) :: path <= d.path
    decreases shape, 1
  {
    if shape.Struct? && a.Node? && b.Node? {
      PathsExtendUpTo(lib, shape.fields, |shape.fields|, path, a.children, b.children);
    }
  }

  /** Every difference among the fields lies under the field it was found in. */
  lemma {:induction false} PathsExtendUpTo(lib: Library, fs: seq<Field>, k: nat, path: Path, a: seq<Tree>, b: seq<Tree>)
    requires k <= |fs| == |a| == |b|
    requires forall i | 0 <= i < |fs| :: Conforms(fs[i].shape, a[i]) && Conforms(fs[i].shape, b[i])
    ensures forall d <- DiffUpTo(lib, fs, k, path, a, b) ::
      exists i | 0 <= i < k :: path + [fs[i].name] <= d.path &&
        d in Diff(lib, fs[i].shape, path + [fs[i].name], a[i], b[i])
    decreases Struct(fs), 0, k
  {
    if k > 0 {
      PathsExtendUpTo(lib, fs, k - 1, path, a, b);
      PathsExtend(lib, fs[k - 1].shape, path + [fs[k - 1].name], a[k - 1], b[k - 1]);
    }
  }

  lemma {:induction false} FieldDifferencesKept(lib: Library, fs: seq<Field>, k: nat, i: nat, path: Path,
                                                a: seq<Tree>, b: seq<Tree>)
    requires i < k <= |fs| == |a| == |b|
    requires forall i | 0 <= i < |fs| :: Conforms(fs[i].shape, a[i]) && Conforms(fs[i].shape, b[i])
    ensures forall d <- Diff(lib, fs[i].shape, path + [fs[i].name], a[i], b[i]) :: d in DiffUpTo(lib, fs, k, path, a, b)
    decreases k
  {
    if i < k - 1 {
      FieldDifferencesKept(lib, fs, k - 1, i, path, a, b);
    }
  }

  /** No reported path is reported twice or lies above another. */
  ghost predicate PrefixFree(ds: seq<Difference>) {
    forall i, j | 0 <= i < |ds| && 0 <= j < |ds| && i != j :: !(ds[i].path <= ds[j].path)
  }

  lemma {:induction false} DiffIsPrefixFree(lib: Library, shape: Shape, path: Path, a: Tree, b: Tree)
    requires Conforms(shape, a) && Conforms(shape, b) && WellShaped(shape)
    ensures PrefixFree(Diff(lib, shape, path, a, b))
    decreases shape, 1
  {
    if shape.Struct? && a.Node? && b.Node? {
      DiffUpToIsPrefixFree(lib, shape.fields, |shape.fields|, path, a.children, b.children);
    }
  }

  lemma {:induction false} DiffUpToIsPrefixFree(lib: Library, fs: seq<Field>, k: nat, path: Path,
                                                a: seq<Tree>, b: seq<Tree>)
    requires k <= |fs| == |a| == |b|
    requires forall i | 0 <= i < |fs| :: Conforms(fs[i].shape, a[i]) && Conforms(fs[i].shape, b[i])
    requires WellShaped(Struct(fs))
    ensures PrefixFree(DiffUpTo(lib, fs, k, path, a, b))
    decreases Struct(fs), 0, k
  {
    if k > 0 {
      var earlier := DiffUpTo(lib, fs, k - 1, path, a, b);
      var under := path + [fs[k - 1].name];
      var here := Diff(lib, fs[k - 1].shape, under, a[k - 1], b[k - 1]);
      DiffUpToIsPrefixFree(lib, fs, k - 1, path, a, b);
      DiffIsPrefixFree(lib, fs[k - 1].shape, under, a[k - 1], b[k - 1]);
      PathsExtendUpTo(lib, fs, k - 1, path, a, b);
      PathsExtend(lib, fs[k - 1].shape, under, a[k - 1], b[k - 1]);
      forall d <- earlier, e <- here
        ensures d.path[|path|] != e.path[|path|] && |d.path| > |path| && |e.path| > |path|
      {
        var i :| 0 <= i < k - 1 && path + [fs[i].name] <= d.path;
        assert (path + [fs[i].name])[|path|] == d.path[|path|];
        assert under[|path|] == e.path[|path|];
      }
      PrefixFreeJoin(earlier, here, |path|);
    }
  }

  lemma PrefixFreeJoin(ds: seq<Difference>, es: seq<Difference>, n: nat)
    requires PrefixFree(ds) && PrefixFree(es)
    requires forall d <- ds, e <- es :: |d.path| > n && |e.path| > n && d.path[n] != e.path[n]
    ensures PrefixFree(ds + es)
  {
  }

  // ---- Swapping the two sides ----

  function Swap(ds: seq<Difference>): seq<Difference> {
    seq(|ds|, i requires 0 <= i < |ds| => Difference(ds[i].path, ds[i].b, ds[i].a))
  }

  lemma {:induction false} DiffSwaps(lib: Library, shape: Shape, path: Path, a: Tree, b: Tree)
    requires Conforms(shape, a) && Conforms(shape, b) && Symmetric(lib)
    ensures Diff(lib, shape, path, b, a) == Swap(Diff(lib, shape, path, a, b))
    decreases shape, 1
  {
    match shape
    case Leaf(kind) =>
      assert LeafDiffers(lib, kind, a, b) == LeafDiffers(lib, kind, b, a);
    case Struct(fs) =>
      if a.Node? && b.Node? {
        DiffUpToSwaps(lib, fs, |fs|, path, a.children, b.children);
      }
  }

  lemma {:induction false} DiffUpToSwaps(lib: Library, fs: seq<Field>, k: nat, path: Path, a: seq<Tree>, b: seq<Tree>)
    requires k <= |fs| == |a| == |b| && Symmetric(lib)
    requires forall i | 0 <= i < |fs| :: Conforms(fs[i].shape, a[i]) && Conforms(fs[i].shape, b[i])
    ensures DiffUpTo(lib, fs, k, path, b, a) == Swap(DiffUpTo(lib, fs, k, path, a, b))
    decreases Struct(fs), 0, k
  {
    if k > 0 {
      DiffUpToSwaps(lib, fs, k - 1, path, a, b);
      DiffSwaps(lib, fs[k - 1].shape, path + [fs[k - 1].name], a[k - 1], b[k - 1]);
    }
  }

  // ---- Patching ----

  lemma {:induction false} DiffOfSame(lib: Library, shape: Shape, path: Path, t: Tree)
    requires Conforms(shape, t) && Reflexive(lib)
    ensures Diff(lib, shape, path, t, t) == []
    decreases shape, 1
  {
    if shape.Struct? && t.Node? {
      DiffUpToOfSame(lib, shape.fields, |shape.fields|, path, t.children);
    }
  }

  lemma {:induction false} DiffUpToOfSame(lib: Library, fs: seq<Field>, k: nat, path: Path, t: seq<Tree>)
    requires k <= |fs| == |t| && Reflexive(lib)
    requires forall i | 0 <= i < |fs| :: Conforms(fs[i].shape, t[i])
    ensures DiffUpTo(lib, fs, k, path, t, t) == []
    decreases Struct(fs), 0, k
  {
    if k > 0 {
      DiffUpToOfSame(lib, fs, k - 1, path, t);
      DiffOfSame(lib, fs[k - 1].shape, path + [fs[k - 1].name], t[k - 1]);
    }
  }

  /** The difference recorded at a path, if any. */
  function Recorded(ds: seq<Difference>, path: Path): Option<Difference> {
    if ds == [] then None
    else if ds[0].path == path then Some(ds[0])
    else Recorded(ds[1..], path)
  }

  /** Writes every recorded b-value over the value at its path. */
  function Patch(shape: Shape, path: Path, t: Tree, ds: seq<Difference>): Tree
    requires Conforms(shape, t)
    decreases shape
  {
    var d := Recorded(ds, path);
    if d.Some? then d.value.b
    else if shape.Leaf? || t.Nil? then t
    else Node(seq(|shape.fields|, i requires 0 <= i < |shape.fields| =>
      Patch(shape.fields[i].shape, path + [shape.fields[i].name], t.children[i], ds)))
  }

  lemma {:induction false} RecordedConcat(ds: seq<Difference>, es: seq<Difference>, path: Path)
    ensures Recorded(ds + es, path) == if Recorded(ds, path).Some? then Recorded(ds, path) else Recorded(es, path)
    decreases ds
  {
    if ds == [] {
      assert ds + es == es;
    } else {
      assert (ds + es)[1..] == ds[1..] + es;
      RecordedConcat(ds[1..], es, path);
    }
  }

  lemma {:induction false} NotRecorded(ds: seq<Difference>, path: Path)
    requires forall d <- ds :: d.path != path
    ensures Recorded(ds, path) == None
    decreases ds
  {
    if ds != [] {
      NotRecorded(ds[1..], path);
    }
  }

  /** A path under one field is recorded among all the fields as it is in that field alone. */
  lemma {:induction false} RecordedInField(lib: Library, fs: seq<Field>, k: nat, i: nat, path: Path,
                                           a: seq<Tree>, b: seq<Tree>, p: Path)
    requires i < |fs| && k <= |fs| == |a| == |b|
    requires forall i | 0 <= i < |fs| :: Conforms(fs[i].shape, a[i]) && Conforms(fs[i].shape, b[i])
    requires WellShaped(Struct(fs)) && path + [fs[i].name] <= p
    ensures Recorded(DiffUpTo(lib, fs, k, path, a, b), p) ==
      if i < k then Recorded(Diff(lib, fs[i].shape, path + [fs[i].name], a[i], b[i]), p) else None
    decreases k
  {
    if k > 0 {
      var under := path + [fs[k - 1].name];
      var here := Diff(lib, fs[k - 1].shape, under, a[k - 1], b[k - 1]);
      RecordedInField(lib, fs, k - 1, i, path, a, b, p);
      RecordedConcat(DiffUpTo(lib, fs, k - 1, path, a, b), here, p);
      if i != k - 1 {
        PathsExtend(lib, fs[k - 1].shape, under, a[k - 1], b[k - 1]);
        forall d <- here ensures d.path != p {
          assert under[|path|] == d.path[|path|] && (path + [fs[i].name])[|path|] == p[|path|];
        }
        NotRecorded(here, p);
      }
    }
  }

  /** Patching a with what was recorded against b leaves nothing to report against b. */
  lemma {:induction false} PatchClosesDiff(lib: Library, shape: Shape, path: Path, a: Tree, b: Tree,
                                           ds: seq<Difference>)
    requires Conforms(shape, a) && Conforms(shape, b) && WellShaped(shape) && Reflexive(lib)
    requires forall p | path <= p :: Recorded(ds, p) == Recorded(Diff(lib, shape, path, a, b), p)
    ensures var patched := Patch(shape, path, a, ds);
      Conforms(shape, patched) && Diff(lib, shape, path, patched, b) == []
    decreases shape
  {
    assert Recorded(ds, path) == Recorded(Diff(lib, shape, path, a, b), path);
    DiffOfSame(lib, shape, path, b);
    if shape.Struct? && a.Node? && b.Node? {
      var fs := shape.fields;
      PathsExtendUpTo(lib, fs, |fs|, path, a.children, b.children);
      NotRecorded(Diff(lib, shape, path, a, b), path);
      var patched := Patch(shape, path, a, ds);
      forall i | 0 <= i < |fs|
        ensures Conforms(fs[i].shape, patched.children[i])
        ensures Diff(lib, fs[i].shape, path + [fs[i].name], patched.children[i], b.children[i]) == []
      {
        var under := path + [fs[i].name];
        forall p | under <= p
          ensures Recorded(ds, p) == Recorded(Diff(lib, fs[i].shape, under, a.children[i], b.children[i]), p)
        {
          RecordedInField(lib, fs, |fs|, i, path, a.children, b.children, p);
          assert path <= under <= p;
        }
        PatchClosesDiff(lib, fs[i].shape, under, a.children[i], b.children[i], ds);
      }
      NothingUpTo(lib, fs, |fs|, path, patched.children, b.children);
    }
  }

  lemma {:induction false} NothingUpTo(lib: Library, fs: seq<Field>, k: nat, path: Path, a: seq<Tree>, b: seq<Tree>)
    requires k <= |fs| == |a| == |b|
    requires forall i | 0 <= i < |fs| :: Conforms(fs[i].shape, a[i]) && Conforms(fs[i].shape, b[i])
    ensures DiffUpTo(lib, fs, k, path, a, b) == [] <==>
      forall i | 0 <= i < k :: Diff(lib, fs[i].shape, path + [fs[i].name], a[i], b[i]) == []
    decreases k
  {
    if k > 0 {
      NothingUpTo(lib, fs, k - 1, path, a, b);
    }
  }
}
