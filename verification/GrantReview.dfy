/** The permission review of an extension (extensions/top/src/extensions.tsx): switches for
    capabilities and for the exact things they act on, which must not drift apart. */
module GrantReview {
  import opened Wrappers

  /** The capabilities that some detail switch is coupled to, and all others. */
  datatype Capability =
    | FilesystemRead | FilesystemWrite
    | ImagesRead | ImagesPull | ImagesRemove | ImagesPrune
    | ContainersCreate | NetworksCreate | VolumesWrite
    | EnvironmentRead | EnvironmentWrite
    | Other(name: string)

  datatype Selector =
    | All | Id(id: string) | Name(name: string)
    | Digest(digest: string) | Reference(reference: string)
    | Exact(exact: string) | Subtree(subtree: string)

  datatype VariableSelector = AllVariables | Variable(workspace: string, name: string)

  datatype ImageVerb = ReadImage | UseImage | PullImage | RemoveImage

  datatype FileVerb = ReadFile | WriteFile | CreateFile | DeleteFile | RenameFile

  datatype VariableVerb = ReadVariable | WriteVariable

  datatype Resources = Resources(selectors: seq<Selector>, create: bool)

  datatype Images = Images(read: seq<Selector>, use: seq<Selector>, pull: seq<Selector>, remove: seq<Selector>, prune: bool)

  datatype Files =
    Files(read: seq<Selector>, write: seq<Selector>, create: seq<Selector>, delete: seq<Selector>, rename: seq<Selector>)

  datatype Environment = Environment(read: seq<VariableSelector>, write: seq<VariableSelector>)

  /** What has been granted so far; also the shape of what the candidate requests. */
  datatype Access = Access(
    capabilities: seq<Capability>,
    containers: Resources, images: Images, networks: Resources, volumes: Resources,
    files: Files, environment: Environment)

  const NOTHING: Access :=
    Access([], Resources([], false), Images([], [], [], [], false), Resources([], false), Resources([], false),
           Files([], [], [], [], []), Environment([], []))

  // ----------------------------------------------------------------- lists

  function Tag(s: Selector): string {
    match s
    case All => "all"
    case Id(_) => "id:"
    case Name(_) => "name:"
    case Digest(_) => "digest:"
    case Reference(_) => "reference:"
    case Exact(_) => "exact:"
    case Subtree(_) => "subtree:"
  }

  function Body(s: Selector): string {
    match s
    case All => ""
    case Id(t) => t
    case Name(t) => t
    case Digest(t) => t
    case Reference(t) => t
    case Exact(t) => t
    case Subtree(t) => t
  }

  function Key(s: Selector): string {
    Tag(s) + Body(s)
  }

  lemma TagsDiffer(s: Selector, t: Selector)
    requires Tag(s)[0] == Tag(t)[0]
    ensures Tag(s) == Tag(t) && (Body(s) == Body(t) ==> s == t)
  {
  }

  /** Switches compare keys; that is comparing selectors. */
  lemma KeysDistinguish(s: Selector, t: Selector)
    ensures Key(s) == Key(t) <==> s == t
  {
    if Key(s) == Key(t) {
      assert Key(s)[0] == Tag(s)[0] && Key(t)[0] == Tag(t)[0];
      TagsDiffer(s, t);
      assert Body(s) == Key(s)[|Tag(s)|..] == Body(t);
    }
  }

  /** Every occurrence of `x` filtered out. */
  function Dropped<T(==, !new)>(list: seq<T>, x: T): (r: seq<T>)
    ensures forall y :: y in r <==> y in list && y != x
    ensures NoRepeats(list) ==> NoRepeats(r)
  {
    if list == [] then []
    else
      var rest := Dropped(list[1..], x);
      assert list == [list[0]] + list[1..];
      ConsKeepsNoRepeats(list[0], rest);
      ConsParts(list);
      if list[0] == x then rest else [list[0]] + rest
  }

  lemma ConsKeepsNoRepeats<T>(x: T, list: seq<T>)
    ensures NoRepeats(list) && x !in list ==> NoRepeats([x] + list)
  {
  }

  lemma ConsParts<T>(list: seq<T>)
    requires list != []
    ensures NoRepeats(list) ==> NoRepeats(list[1..]) && list[0] !in list[1..]
  {
  }

  /** A set built from a list, listed in insertion order. */
  function Distinct<T(==, !new)>(list: seq<T>): (r: seq<T>)
    ensures forall x :: x in r <==> x in list
    ensures NoRepeats(r)
  {
    if list == [] then []
    else
      var rest := Distinct(list[..|list| - 1]);
      var last := list[|list| - 1];
      assert list == list[..|list| - 1] + [last];
      if last in rest then rest else rest + [last]
  }

  predicate NoRepeats<T(==)>(list: seq<T>) {
    forall i, j :: 0 <= i < j < |list| ==> list[i] != list[j]
  }

  lemma SnocKeepsNoRepeats<T>(list: seq<T>, x: T)
    requires NoRepeats(list) && x !in list
    ensures NoRepeats(list + [x])
  {
  }

  /** `withCapability` */
  function WithCapability(current: seq<Capability>, c: Capability, on: bool): (r: seq<Capability>)
    ensures NoRepeats(current) ==> NoRepeats(r)
    ensures forall d :: d in r <==> if d == c then on else d in current
  {
    if on then Distinct(current + [c]) else Dropped(current, c)
  }

  /** Container, image and network switches. */
  function Switched(list: seq<Selector>, s: Selector, on: bool): (r: seq<Selector>)
    ensures forall x :: x in r <==> if x == s then on else x in list
    ensures NoRepeats(list) ==> NoRepeats(r)
  {
    if on then if s in list then list else list + [s] else Dropped(list, s)
  }

  /** Volume switches: a selector switched on again moves to the end. */
  function Moved(list: seq<Selector>, s: Selector, on: bool): (r: seq<Selector>)
    ensures forall x :: x in r <==> if x == s then on else x in list
    ensures NoRepeats(list) ==> NoRepeats(r)
  {
    assert NoRepeats(list) ==> NoRepeats(Dropped(list, s) + [s]) by {
      if NoRepeats(list) {
        SnocKeepsNoRepeats(Dropped(list, s), s);
      }
    }
    if on then Dropped(list, s) + [s] else Dropped(list, s)
  }

  /** File switches. */
  function Appended(list: seq<Selector>, s: Selector, on: bool): (r: seq<Selector>)
    ensures forall x :: x in r <==> if x == s then on else x in list
  {
    if on then list + [s] else Dropped(list, s)
  }

  /** A file switch lists a selector twice exactly when it is switched on twice. */
  lemma AppendedRepeats(list: seq<Selector>, s: Selector, on: bool)
    requires NoRepeats(list)
    ensures NoRepeats(Appended(list, s, on)) <==> !(on && s in list)
  {
    if on && s in list {
      var i :| 0 <= i < |list| && list[i] == s;
      assert (list + [s])[i] == (list + [s])[|list|];
    }
  }

  function AppendedVariable(list: seq<VariableSelector>, s: VariableSelector, on: bool): (r: seq<VariableSelector>)
    ensures forall x :: x in r <==> if x == s then on else x in list
  {
    if on then list + [s] else Dropped(list, s)
  }

  // --------------------------------------------------------- lists by key

  lemma {:induction false} DroppedSnoc<T(!new)>(list: seq<T>, last: T, x: T)
    ensures Dropped(list + [last], x) == Dropped(list, x) + (if last == x then [] else [last])
  {
    if list == [] {
      assert list + [last] == [last];
      assert Dropped([last][1..], x) == [];
    } else {
      var whole := list + [last];
      assert whole[0] == list[0] && whole[1..] == list[1..] + [last];
      DroppedSnoc(list[1..], last, x);
    }
  }

  lemma DroppedNext(list: seq<Selector>, s: Selector, i: nat)
    requires i < |list|
    ensures Dropped(list[..i + 1], s) == Dropped(list[..i], s) + (if list[i] == s then [] else [list[i]])
  {
    assert list[..i + 1] == list[..i] + [list[i]];
    DroppedSnoc(list[..i], list[i], s);
  }

  /** The selectors whose key is another. */
  method FilterOut(list: seq<Selector>, s: Selector) returns (r: seq<Selector>)
    ensures r == Dropped(list, s)
  {
    r := [];
    for i := 0 to |list|
      invariant r == Dropped(list[..i], s)
    {
      KeysDistinguish(list[i], s);
      DroppedNext(list, s, i);
      if Key(list[i]) != Key(s) {
        r := r + [list[i]];
      }
    }
    assert list[..|list|] == list;
  }

  /** Whether some selector has the key. */
  method HasKey(list: seq<Selector>, s: Selector) returns (found: bool)
    ensures found <==> s in list
  {
    for i := 0 to |list|
      invariant s !in list[..i]
    {
      KeysDistinguish(list[i], s);
      if Key(list[i]) == Key(s) {
        return true;
      }
    }
    return false;
  }

  method SwitchSelector(list: seq<Selector>, s: Selector, on: bool) returns (r: seq<Selector>)
    ensures r == Switched(list, s, on)
  {
    if on {
      var found := HasKey(list, s);
      r := if found then list else list + [s];
    } else {
      r := FilterOut(list, s);
    }
  }

  // -------------------------------------------------------------- switches

  function ImageCapability(verb: ImageVerb): Capability {
    match verb
    case ReadImage => ImagesRead
    case UseImage => ContainersCreate
    case PullImage => ImagesPull
    case RemoveImage => ImagesRemove
  }

  function ImageList(i: Images, verb: ImageVerb): seq<Selector> {
    match verb
    case ReadImage => i.read
    case UseImage => i.use
    case PullImage => i.pull
    case RemoveImage => i.remove
  }

  function WithImageList(i: Images, verb: ImageVerb, list: seq<Selector>): Images {
    match verb
    case ReadImage => i.(read := list)
    case UseImage => i.(use := list)
    case PullImage => i.(pull := list)
    case RemoveImage => i.(remove := list)
  }

  lemma ImageListLaw(i: Images, verb: ImageVerb, list: seq<Selector>, other: ImageVerb)
    ensures ImageList(WithImageList(i, verb, list), other) == if other == verb then list else ImageList(i, other)
    ensures WithImageList(i, verb, list).prune == i.prune
  {
  }

  function FileCapability(verb: FileVerb): Capability {
    if verb.ReadFile? then FilesystemRead else FilesystemWrite
  }

  function FileList(f: Files, verb: FileVerb): seq<Selector> {
    match verb
    case ReadFile => f.read
    case WriteFile => f.write
    case CreateFile => f.create
    case DeleteFile => f.delete
    case RenameFile => f.rename
  }

  function WithFileList(f: Files, verb: FileVerb, list: seq<Selector>): Files {
    match verb
    case ReadFile => f.(read := list)
    case WriteFile => f.(write := list)
    case CreateFile => f.(create := list)
    case DeleteFile => f.(delete := list)
    case RenameFile => f.(rename := list)
  }

  lemma FileListLaw(f: Files, verb: FileVerb, list: seq<Selector>, other: FileVerb)
    ensures FileList(WithFileList(f, verb, list), other) == if other == verb then list else FileList(f, other)
  {
  }

  function VariableCapability(verb: VariableVerb): Capability {
    if verb.ReadVariable? then EnvironmentRead else EnvironmentWrite
  }

  function VariableList(e: Environment, verb: VariableVerb): seq<VariableSelector> {
    if verb.ReadVariable? then e.read else e.write
  }

  function WithVariableList(e: Environment, verb: VariableVerb, list: seq<VariableSelector>): Environment {
    if verb.ReadVariable? then e.(read := list) else e.(write := list)
  }

  /** One thing that can be granted beside the capabilities. */
  datatype Detail =
    | ContainerDetail(selector: Selector) | ContainerCreation
    | ImageDetail(imageVerb: ImageVerb, selector: Selector) | Pruning
    | NetworkDetail(selector: Selector) | NetworkCreation
    | VolumeDetail(selector: Selector) | VolumeCreation
    | FileDetail(fileVerb: FileVerb, selector: Selector)
    | VariableDetail(variableVerb: VariableVerb, variable: VariableSelector)

  /** `Select` is "Select required access", `Clear` is "Clear product access"; `Toggle` is the switch of
      one detail. */
  datatype Switch =
    | Reset
    | Select(required: seq<Capability>)
    | Clear
    | ToggleCapability(capability: Capability, on: bool)
    | Toggle(detail: Detail, on: bool)

  /** What turning a capability off takes along. */
  function Cleared(a: Access, c: Capability): Access {
    match c
    case EnvironmentRead => a.(environment := a.environment.(read := []))
    case EnvironmentWrite => a.(environment := a.environment.(write := []))
    case FilesystemRead => a.(files := a.files.(read := []))
    case FilesystemWrite => a.(files := a.files.(write := [], create := [], delete := [], rename := []))
    case ImagesRead => a.(images := a.images.(read := []))
    case ImagesPull => a.(images := a.images.(pull := []))
    case ImagesRemove => a.(images := a.images.(remove := []))
    case ImagesPrune => a.(images := a.images.(prune := false))
    case ContainersCreate => a.(images := a.images.(use := []), containers := a.containers.(create := false))
    case NetworksCreate => a.(networks := a.networks.(create := false))
    case VolumesWrite => a.(volumes := a.volumes.(create := false))
    case Other(_) => a
  }

  function Granting(a: Access, c: Capability, on: bool): Access {
    a.(capabilities := WithCapability(a.capabilities, c, on))
  }

  predicate AnyFile(f: Files, verb: FileVerb) {
    if verb.ReadFile? then f.read != [] else f.write != [] || f.create != [] || f.delete != [] || f.rename != []
  }

  /** The detail itself, without its capability. */
  function Changed(a: Access, d: Detail, on: bool): Access {
    match d
    case ContainerDetail(x) => a.(containers := a.containers.(selectors := Switched(a.containers.selectors, x, on)))
    case ContainerCreation => a.(containers := a.containers.(create := on))
    case ImageDetail(verb, x) =>
      a.(images := WithImageList(a.images, verb, Switched(ImageList(a.images, verb), x, on)))
    case Pruning => a.(images := a.images.(prune := on))
    case NetworkDetail(x) => a.(networks := a.networks.(selectors := Switched(a.networks.selectors, x, on)))
    case NetworkCreation => a.(networks := a.networks.(create := on))
    case VolumeDetail(x) => a.(volumes := a.volumes.(selectors := Moved(a.volumes.selectors, x, on)))
    case VolumeCreation => a.(volumes := a.volumes.(create := on))
    case FileDetail(verb, x) => a.(files := WithFileList(a.files, verb, Appended(FileList(a.files, verb), x, on)))
    case VariableDetail(verb, x) =>
      a.(environment := WithVariableList(a.environment, verb, AppendedVariable(VariableList(a.environment, verb), x, on)))
  }

  function Toggled(a: Access, d: Detail, on: bool): Access {
    var b := Changed(a, d, on);
    match d
    case ContainerDetail(_) => b
    case ContainerCreation => Granting(b, ContainersCreate, on || a.images.use != [])
    case ImageDetail(verb, _) =>
      Granting(b, ImageCapability(verb),
               ImageList(b.images, verb) != [] || (ImageCapability(verb) == ContainersCreate && a.containers.create))
    case Pruning => Granting(b, ImagesPrune, on)
    case NetworkDetail(_) => b
    case NetworkCreation => Granting(b, NetworksCreate, on)
    case VolumeDetail(_) => b
    case VolumeCreation => Granting(b, VolumesWrite, on)
    case FileDetail(verb, _) => Granting(b, FileCapability(verb), AnyFile(b.files, verb))
    case VariableDetail(verb, _) => Granting(b, VariableCapability(verb), VariableList(b.environment, verb) != [])
  }

  function CapabilityToggled(a: Access, c: Capability, on: bool): Access {
    Granting(if on then a else Cleared(a, c), c, on)
  }

  /** It empties the capabilities and leaves every detail. */
  function ProductAccessCleared(a: Access): Access {
    a.(capabilities := [])
  }

  function Next(a: Access, s: Switch): Access {
    match s
    case Reset => NOTHING
    case Select(required) => a.(capabilities := Distinct(a.capabilities + required))
    case Clear => ProductAccessCleared(a)
    case ToggleCapability(c, on) => CapabilityToggled(a, c, on)
    case Toggle(d, on) => Toggled(a, d, on)
  }

  /** The toggle of the file consent list: what it reports to the page. */
  method FilesystemConsent(granted: Files, verb: FileVerb, x: Selector, on: bool)
    returns (capability: Capability, enabled: bool, next: Files)
    ensures capability == FileCapability(verb)
    ensures next == WithFileList(granted, verb, Appended(FileList(granted, verb), x, on))
    ensures enabled == AnyFile(next, verb)
  {
    var selected := FileList(granted, verb);
    var list := selected + [x];
    if !on {
      list := FilterOut(selected, x);
    }
    next := WithFileList(granted, verb, list);
    capability := if verb == ReadFile then FilesystemRead else FilesystemWrite;
    enabled := if capability == FilesystemRead then |next.read| > 0
               else |next.write| > 0 || |next.create| > 0 || |next.delete| > 0 || |next.rename| > 0;
  }

  /** The toggle of an image selector, up to its two state updates. */
  method ImageConsent(granted: Images, containersCreate: bool, verb: ImageVerb, x: Selector, on: bool)
    returns (capability: Capability, enabled: bool, next: Images)
    ensures capability == ImageCapability(verb)
    ensures next == WithImageList(granted, verb, Switched(ImageList(granted, verb), x, on))
    ensures enabled <==> ImageList(next, verb) != [] || (verb == UseImage && containersCreate)
  {
    var list := SwitchSelector(ImageList(granted, verb), x, on);
    ImageListLaw(granted, verb, list, verb);
    next := WithImageList(granted, verb, list);
    capability := ImageCapability(verb);
    enabled := |ImageList(next, verb)| > 0 || (capability == ContainersCreate && containersCreate);
  }

  /** The page's state; each handler is one method. */
  class ReviewPage {
    var granted: seq<Capability>
    var containers: Resources
    var images: Images
    var networks: Resources
    var volumes: Resources
    var files: Files
    var environment: Environment

    constructor ()
      ensures View() == NOTHING
    {
      granted, containers, networks, volumes := [], Resources([], false), Resources([], false), Resources([], false);
      images, files, environment := Images([], [], [], [], false), Files([], [], [], [], []), Environment([], []);
    }

    function View(): Access
      reads this
    {
      Access(granted, containers, images, networks, volumes, files, environment)
    }

    /** A new candidate arrives. */
    method Arrive()
      modifies this
      ensures View() == Next(old(View()), Reset)
      ensures |granted| == 0 && forall d :: !Has(View(), d)
    {
      granted := [];
      containers := Resources([], false);
      images := Images([], [], [], [], false);
      networks := Resources([], false);
      volumes := Resources([], false);
      files := Files([], [], [], [], []);
      environment := Environment([], []);
    }

    method SelectRequired(required: seq<Capability>)
      modifies this`granted
      ensures View() == Next(old(View()), Select(required))
      ensures forall c :: c in granted <==> c in old(granted) || c in required
    {
      granted := Distinct(granted + required);
    }

    method ClearProductAccess()
      modifies this`granted
      ensures View() == Next(old(View()), Clear)
      ensures |granted| == 0
    {
      granted := [];
    }

    method ToggleProductAccess(c: Capability, on: bool)
      modifies this
      ensures View() == CapabilityToggled(old(View()), c, on)
    {
      granted := WithCapability(granted, c, on);
      if !on {
        ClearDetails(c);
      }
    }

    method ClearDetails(c: Capability)
      modifies this`containers, this`images, this`networks, this`volumes, this`files, this`environment
      ensures View() == Cleared(old(View()), c)
    {
      if c == EnvironmentRead { environment := environment.(read := []); }
      if c == EnvironmentWrite { environment := environment.(write := []); }
      if c == FilesystemRead { files := files.(read := []); }
      if c == FilesystemWrite { files := files.(write := [], create := [], delete := [], rename := []); }
      if c == ImagesRead { images := images.(read := []); }
      if c == ImagesPull { images := images.(pull := []); }
      if c == ImagesRemove { images := images.(remove := []); }
      if c == ImagesPrune { images := images.(prune := false); }
      if c == ContainersCreate {
        images := images.(use := []);
        containers := containers.(create := false);
      }
      if c == NetworksCreate { networks := networks.(create := false); }
      if c == VolumesWrite { volumes := volumes.(create := false); }
    }

    method ToggleContainer(x: Selector, on: bool)
      modifies this`containers
      ensures View() == Toggled(old(View()), ContainerDetail(x), on)
    {
      var list := SwitchSelector(containers.selectors, x, on);
      containers := containers.(selectors := list);
    }

    method ToggleContainerCreation(on: bool)
      modifies this`granted, this`containers
      ensures View() == Toggled(old(View()), ContainerCreation, on)
    {
      granted := WithCapability(granted, ContainersCreate, on || |images.use| > 0);
      containers := containers.(create := on);
    }

    method ToggleImage(verb: ImageVerb, x: Selector, on: bool)
      modifies this`granted, this`images
      ensures View() == Toggled(old(View()), ImageDetail(verb, x), on)
    {
      var capability, enabled, next := ImageConsent(images, containers.create, verb, x, on);
      ImageListLaw(images, verb, Switched(ImageList(images, verb), x, on), verb);
      granted := WithCapability(granted, capability, enabled);
      images := next;
    }

    method TogglePruning(on: bool)
      modifies this`granted, this`images
      ensures View() == Toggled(old(View()), Pruning, on)
    {
      granted := WithCapability(granted, ImagesPrune, on);
      images := images.(prune := on);
    }

    method ToggleNetwork(x: Selector, on: bool)
      modifies this`networks
      ensures View() == Toggled(old(View()), NetworkDetail(x), on)
    {
      var list := SwitchSelector(networks.selectors, x, on);
      networks := networks.(selectors := list);
    }

    method ToggleNetworkCreation(on: bool)
      modifies this`granted, this`networks
      ensures View() == Toggled(old(View()), NetworkCreation, on)
    {
      granted := WithCapability(granted, NetworksCreate, on);
      networks := networks.(create := on);
    }

    method ToggleVolume(x: Selector, on: bool)
      modifies this`volumes
      ensures View() == Toggled(old(View()), VolumeDetail(x), on)
    {
      var list := FilterOut(volumes.selectors, x);
      volumes := volumes.(selectors := if on then list + [x] else list);
    }

    method ToggleVolumeCreation(on: bool)
      modifies this`granted, this`volumes
      ensures View() == Toggled(old(View()), VolumeCreation, on)
    {
      granted := WithCapability(granted, VolumesWrite, on);
      volumes := volumes.(create := on);
    }

    method ToggleFile(verb: FileVerb, x: Selector, on: bool)
      modifies this`granted, this`files
      ensures View() == Toggled(old(View()), FileDetail(verb, x), on)
    {
      var capability, enabled, next := FilesystemConsent(files, verb, x, on);
      granted := WithCapability(granted, capability, enabled);
      files := next;
    }

    method ToggleVariable(verb: VariableVerb, x: VariableSelector, on: bool)
      modifies this`granted, this`environment
      ensures View() == Toggled(old(View()), VariableDetail(verb, x), on)
    {
      var list := AppendedVariable(VariableList(environment, verb), x, on);
      environment := WithVariableList(environment, verb, list);
      granted := WithCapability(granted, VariableCapability(verb), |list| > 0);
    }
  }

  // --------------------------------------------------------------- meaning

  predicate Has(a: Access, d: Detail) {
    match d
    case ContainerDetail(x) => x in a.containers.selectors
    case ContainerCreation => a.containers.create
    case ImageDetail(verb, x) => x in ImageList(a.images, verb)
    case Pruning => a.images.prune
    case NetworkDetail(x) => x in a.networks.selectors
    case NetworkCreation => a.networks.create
    case VolumeDetail(x) => x in a.volumes.selectors
    case VolumeCreation => a.volumes.create
    case FileDetail(verb, x) => x in FileList(a.files, verb)
    case VariableDetail(verb, x) => x in VariableList(a.environment, verb)
  }

  /** The capability a detail is useless without. */
  function Requirement(d: Detail): Option<Capability> {
    match d
    case ContainerDetail(_) => None
    case ContainerCreation => Some(ContainersCreate)
    case ImageDetail(verb, _) => Some(ImageCapability(verb))
    case Pruning => Some(ImagesPrune)
    case NetworkDetail(_) => None
    case NetworkCreation => Some(NetworksCreate)
    case VolumeDetail(_) => None
    case VolumeCreation => Some(VolumesWrite)
    case FileDetail(verb, _) => Some(FileCapability(verb))
    case VariableDetail(verb, _) => Some(VariableCapability(verb))
  }

  predicate Needing(a: Access, d: Detail, c: Capability) {
    Has(a, d) && Requirement(d) == Some(c)
  }

  /** Some granted detail requires the capability. */
  ghost predicate Needed(a: Access, c: Capability) {
    exists d :: Needing(a, d, c)
  }

  /** `Needed`, as the page computes it. */
  predicate Needs(a: Access, c: Capability) {
    match c
    case FilesystemRead => a.files.read != []
    case FilesystemWrite => a.files.write != [] || a.files.create != [] || a.files.delete != [] || a.files.rename != []
    case ImagesRead => a.images.read != []
    case ImagesPull => a.images.pull != []
    case ImagesRemove => a.images.remove != []
    case ImagesPrune => a.images.prune
    case ContainersCreate => a.images.use != [] || a.containers.create
    case NetworksCreate => a.networks.create
    case VolumesWrite => a.volumes.create
    case EnvironmentRead => a.environment.read != []
    case EnvironmentWrite => a.environment.write != []
    case Other(_) => false
  }

  /** A detail that requires the capability, when one is granted. */
  function Witness(a: Access, c: Capability): (d: Detail)
    requires Needs(a, c)
    ensures Needing(a, d, c)
  {
    match c
    case FilesystemRead => FileDetail(ReadFile, a.files.read[0])
    case FilesystemWrite =>
      if a.files.write != [] then FileDetail(WriteFile, a.files.write[0])
      else if a.files.create != [] then FileDetail(CreateFile, a.files.create[0])
      else if a.files.delete != [] then FileDetail(DeleteFile, a.files.delete[0])
      else FileDetail(RenameFile, a.files.rename[0])
    case ImagesRead => ImageDetail(ReadImage, a.images.read[0])
    case ImagesPull => ImageDetail(PullImage, a.images.pull[0])
    case ImagesRemove => ImageDetail(RemoveImage, a.images.remove[0])
    case ImagesPrune => Pruning
    case ContainersCreate => if a.containers.create then ContainerCreation else ImageDetail(UseImage, a.images.use[0])
    case NetworksCreate => NetworkCreation
    case VolumesWrite => VolumeCreation
    case EnvironmentRead => VariableDetail(ReadVariable, a.environment.read[0])
    case EnvironmentWrite => VariableDetail(WriteVariable, a.environment.write[0])
  }

  lemma NeededIsNeeds(a: Access, c: Capability)
    ensures Needed(a, c) <==> Needs(a, c)
  {
    if Needs(a, c) {
      assert Needing(a, Witness(a, c), c);
    }
  }

  lemma GrantingHas(a: Access, c: Capability, on: bool, e: Detail)
    ensures Has(Granting(a, c, on), e) <==> Has(a, e)
  {
  }

  lemma ToggledDetails(a: Access, d: Detail, on: bool, e: Detail)
    ensures Has(Toggled(a, d, on), e) <==> Has(Changed(a, d, on), e)
  {
    var b := Changed(a, d, on);
    match d
    case ContainerDetail(_) =>
    case ContainerCreation => GrantingHas(b, ContainersCreate, on || a.images.use != [], e);
    case ImageDetail(verb, _) =>
      GrantingHas(b, ImageCapability(verb),
                  ImageList(b.images, verb) != [] || (ImageCapability(verb) == ContainersCreate && a.containers.create), e);
    case Pruning => GrantingHas(b, ImagesPrune, on, e);
    case NetworkDetail(_) =>
    case NetworkCreation => GrantingHas(b, NetworksCreate, on, e);
    case VolumeDetail(_) =>
    case VolumeCreation => GrantingHas(b, VolumesWrite, on, e);
    case FileDetail(verb, _) => GrantingHas(b, FileCapability(verb), AnyFile(b.files, verb), e);
    case VariableDetail(verb, _) => GrantingHas(b, VariableCapability(verb), VariableList(b.environment, verb) != [], e);
  }

  /** A detail switch sets its own detail and leaves every other detail alone. */
  lemma ToggleSets(a: Access, d: Detail, on: bool, e: Detail)
    ensures Has(Toggled(a, d, on), e) <==> if e == d then on else Has(a, e)
  {
    ToggledDetails(a, d, on, e);
    match d
    case ImageDetail(verb, x) => ImageChanges(a, verb, x, on, e);
    case FileDetail(verb, x) => FileChanges(a, verb, x, on, e);
    case VariableDetail(verb, x) => VariableChanges(a, verb, x, on, e);
    case _ => OtherChanges(a, d, on, e);
  }

  lemma OtherChanges(a: Access, d: Detail, on: bool, e: Detail)
    requires !d.ImageDetail? && !d.FileDetail? && !d.VariableDetail?
    ensures Has(Changed(a, d, on), e) <==> if e == d then on else Has(a, e)
  {
    match d
    case ContainerDetail(_) =>
    case ContainerCreation =>
    case Pruning =>
    case NetworkDetail(_) =>
    case NetworkCreation =>
    case VolumeDetail(_) =>
    case VolumeCreation =>
  }

  lemma VariableChanges(a: Access, verb: VariableVerb, x: VariableSelector, on: bool, e: Detail)
    ensures Has(Changed(a, VariableDetail(verb, x), on), e) <==> if e == VariableDetail(verb, x) then on else Has(a, e)
  {
  }

  lemma ImageHas(a: Access, verb: ImageVerb, list: seq<Selector>, e: Detail)
    ensures Has(a.(images := WithImageList(a.images, verb, list)), e) <==>
            if e.ImageDetail? && e.imageVerb == verb then e.selector in list else Has(a, e)
  {
    if e.ImageDetail? {
      ImageListLaw(a.images, verb, list, e.imageVerb);
    } else {
      ImageListLaw(a.images, verb, list, verb);
    }
  }

  lemma ImageChanges(a: Access, verb: ImageVerb, x: Selector, on: bool, e: Detail)
    ensures Has(Changed(a, ImageDetail(verb, x), on), e) <==> if e == ImageDetail(verb, x) then on else Has(a, e)
  {
    ImageHas(a, verb, Switched(ImageList(a.images, verb), x, on), e);
  }

  lemma FileHas(a: Access, verb: FileVerb, list: seq<Selector>, e: Detail)
    ensures Has(a.(files := WithFileList(a.files, verb, list)), e) <==>
            if e.FileDetail? && e.fileVerb == verb then e.selector in list else Has(a, e)
  {
    if e.FileDetail? {
      FileListLaw(a.files, verb, list, e.fileVerb);
    }
  }

  lemma FileChanges(a: Access, verb: FileVerb, x: Selector, on: bool, e: Detail)
    ensures Has(Changed(a, FileDetail(verb, x), on), e) <==> if e == FileDetail(verb, x) then on else Has(a, e)
  {
    FileHas(a, verb, Appended(FileList(a.files, verb), x, on), e);
  }

  lemma GrantingSets(a: Access, c: Capability, on: bool, d: Capability)
    ensures d in Granting(a, c, on).capabilities <==> if d == c then on else d in a.capabilities
    ensures Needs(Granting(a, c, on), d) <==> Needs(a, d)
  {
  }

  lemma FileNeeds(a: Access, verb: FileVerb)
    ensures Needs(a, FileCapability(verb)) <==> AnyFile(a.files, verb)
  {
  }

  lemma ImageNeeds(a: Access, verb: ImageVerb)
    ensures Needs(a, ImageCapability(verb)) <==>
            ImageList(a.images, verb) != [] || (ImageCapability(verb) == ContainersCreate && a.containers.create)
  {
  }

  lemma VariableNeeds(a: Access, verb: VariableVerb)
    ensures Needs(a, VariableCapability(verb)) <==> VariableList(a.environment, verb) != []
  {
  }

  /** Afterwards its own capability is granted exactly when some detail requires it; every other
      capability is as before. */
  lemma ToggleCouples(a: Access, d: Detail, on: bool, c: Capability)
    ensures c in Toggled(a, d, on).capabilities <==>
            if Requirement(d) == Some(c) then Needed(Toggled(a, d, on), c) else c in a.capabilities
  {
    NeededIsNeeds(Toggled(a, d, on), c);
    ToggleSetsAsNeeded(a, d, on, c);
  }

  lemma ToggleSetsAsNeeded(a: Access, d: Detail, on: bool, c: Capability)
    ensures c in Toggled(a, d, on).capabilities <==>
            if Requirement(d) == Some(c) then Needs(Toggled(a, d, on), c) else c in a.capabilities
  {
    var b := Changed(a, d, on);
    match d
    case ImageDetail(verb, _) =>
      ImageNeeds(b, verb);
      GrantingSets(b, ImageCapability(verb),
                   ImageList(b.images, verb) != [] || (ImageCapability(verb) == ContainersCreate && a.containers.create), c);
    case FileDetail(verb, _) =>
      FileNeeds(b, verb);
      GrantingSets(b, FileCapability(verb), AnyFile(b.files, verb), c);
    case VariableDetail(verb, _) =>
      VariableNeeds(b, verb);
      GrantingSets(b, VariableCapability(verb), VariableList(b.environment, verb) != [], c);
    case ContainerCreation => GrantingSets(b, ContainersCreate, on || a.images.use != [], c);
    case Pruning => GrantingSets(b, ImagesPrune, on, c);
    case NetworkCreation => GrantingSets(b, NetworksCreate, on, c);
    case VolumeCreation => GrantingSets(b, VolumesWrite, on, c);
    case ContainerDetail(_) =>
    case NetworkDetail(_) =>
    case VolumeDetail(_) =>
  }

  /** A capability switch sets its capability; switched off, it takes along exactly the details that
      require it. */
  lemma CapabilitySwitchMeans(a: Access, c: Capability, on: bool, d: Capability, e: Detail)
    ensures d in CapabilityToggled(a, c, on).capabilities <==> if d == c then on else d in a.capabilities
    ensures Has(CapabilityToggled(a, c, on), e) <==> Has(a, e) && (on || Requirement(e) != Some(c))
  {
    if !on {
      ClearedMeans(a, c, e);
    }
  }

  lemma ClearedMeans(a: Access, c: Capability, e: Detail)
    ensures Has(Cleared(a, c), e) <==> Has(a, e) && Requirement(e) != Some(c)
  {
    match c
    case FilesystemRead =>
    case FilesystemWrite =>
    case ImagesRead =>
    case ImagesPull =>
    case ImagesRemove =>
    case ImagesPrune =>
    case ContainersCreate =>
    case NetworksCreate =>
    case VolumesWrite =>
    case EnvironmentRead =>
    case EnvironmentWrite =>
    case Other(_) =>
  }

  // -------------------------------------------------------------- coupling

  predicate Backed(a: Access, d: Detail) {
    Has(a, d) && Requirement(d).Some? ==> Requirement(d).value in a.capabilities
  }

  /** Every granted detail has the capability it requires. */
  ghost predicate Coupled(a: Access) {
    forall d :: Backed(a, d)
  }

  /** A clear is harmless when no granted detail requires a capability. */
  ghost predicate Harmless(a: Access, s: Switch) {
    s.Clear? ==> forall c :: !Needed(a, c)
  }

  /** Every switch keeps the coupling, except a clear that is not harmless. */
  lemma StepKeepsCoupled(a: Access, s: Switch)
    requires Coupled(a)
    ensures Coupled(Next(a, s)) <==> Harmless(a, s)
  {
    if s.Clear? {
      ClearKeepsCoupled(a);
    } else {
      forall e
        ensures Backed(Next(a, s), e)
      {
        assert Backed(a, e);
        StepKeepsBacked(a, s, e);
      }
    }
  }

  lemma StepKeepsBacked(a: Access, s: Switch, e: Detail)
    requires Backed(a, e) && !s.Clear?
    ensures Backed(Next(a, s), e)
  {
    match s
    case Toggle(d, on) =>
      ToggleSets(a, d, on, e);
      if Requirement(e).Some? && Has(Next(a, s), e) {
        assert Needing(Next(a, s), e, Requirement(e).value);
        ToggleCouples(a, d, on, Requirement(e).value);
      }
    case ToggleCapability(c, on) =>
      CapabilitySwitchMeans(a, c, on, if Requirement(e).Some? then Requirement(e).value else c, e);
    case _ =>
  }

  function After(a: Access, run: seq<Switch>): Access
    decreases |run|
  {
    if run == [] then a else After(Next(a, run[0]), run[1..])
  }

  /** Every clear of the run is harmless where it happens. */
  ghost predicate ClearsHarmless(a: Access, run: seq<Switch>)
    decreases |run|
  {
    run == [] || (Harmless(a, run[0]) && ClearsHarmless(Next(a, run[0]), run[1..]))
  }

  lemma {:induction false} RunKeepsCoupled(a: Access, run: seq<Switch>)
    requires Coupled(a) && ClearsHarmless(a, run)
    ensures Coupled(After(a, run))
    decreases |run|
  {
    if run != [] {
      StepKeepsCoupled(a, run[0]);
      RunKeepsCoupled(Next(a, run[0]), run[1..]);
    }
  }

  lemma NothingCoupled()
    ensures Coupled(NOTHING)
  {
    forall d
      ensures Backed(NOTHING, d)
    {
      assert !Has(NOTHING, d);
    }
  }

  /** However the review went before a candidate arrived, and whatever is switched after it, every
      granted detail has its capability, as long as product access is only cleared while no granted
      detail requires a capability; without a clear, always. */
  lemma ReviewStaysCoupled(earlier: Access, run: seq<Switch>)
    requires ClearsHarmless(Next(earlier, Reset), run)
    ensures Coupled(After(Next(earlier, Reset), run))
  {
    NothingCoupled();
    RunKeepsCoupled(NOTHING, run);
  }

  /** The review is coupled at every moment of the run. */
  ghost predicate AlwaysCoupled(a: Access, run: seq<Switch>)
    decreases |run|
  {
    Coupled(a) && (run == [] || AlwaysCoupled(Next(a, run[0]), run[1..]))
  }

  /** From the arrival of a candidate on, the coupling holds throughout a run if and only if every
      clear of the run is harmless. */
  lemma ReviewCoupledExactly(earlier: Access, run: seq<Switch>)
    ensures AlwaysCoupled(Next(earlier, Reset), run) <==> ClearsHarmless(Next(earlier, Reset), run)
  {
    NothingCoupled();
    RunCoupledExactly(NOTHING, run);
  }

  lemma {:induction false} RunCoupledExactly(a: Access, run: seq<Switch>)
    requires Coupled(a)
    ensures AlwaysCoupled(a, run) <==> ClearsHarmless(a, run)
    decreases |run|
  {
    if run != [] {
      StepKeepsCoupled(a, run[0]);
      if Coupled(Next(a, run[0])) {
        RunCoupledExactly(Next(a, run[0]), run[1..]);
      }
    }
  }

  lemma {:induction false} WithoutClearsHarmless(a: Access, run: seq<Switch>)
    requires forall s :: s in run ==> !s.Clear?
    ensures ClearsHarmless(a, run)
    decreases |run|
  {
    if run != [] {
      assert run[0] in run && forall s :: s in run[1..] ==> s in run;
      WithoutClearsHarmless(Next(a, run[0]), run[1..]);
    }
  }

  /** From every state of the review, the clear keeps the coupling exactly when it is harmless. */
  lemma ClearKeepsCoupled(a: Access)
    ensures Coupled(ProductAccessCleared(a)) <==> forall c :: !Needed(a, c)
  {
    var t := ProductAccessCleared(a);
    if Coupled(t) {
      forall c
        ensures !Needed(a, c)
      {
        forall d
          ensures !Needing(a, d, c)
        {
          assert Backed(t, d) && Has(t, d) == Has(a, d);
        }
      }
    } else {
      var d :| !Backed(t, d);
      assert Has(t, d) == Has(a, d);
      assert Needing(a, d, Requirement(d).value);
      assert Needed(a, Requirement(d).value);
    }
  }

  /** A harmful clear can be reached: after a reset, switching volume creation on and clearing leaves
      volume creation granted without its capability. */
  lemma ClearLosesCoupling(earlier: Access)
    ensures var run := [Reset, Toggle(VolumeCreation, true), Clear];
            Has(After(earlier, run), VolumeCreation) && !Coupled(After(earlier, run))
  {
    var run := [Reset, Toggle(VolumeCreation, true), Clear];
    assert run[1..] == [Toggle(VolumeCreation, true), Clear] && run[1..][1..] == [Clear] && run[1..][1..][1..] == [];
    var granted := Next(Next(earlier, Reset), Toggle(VolumeCreation, true));
    assert After(earlier, run) == ProductAccessCleared(granted);
    assert !Backed(ProductAccessCleared(granted), VolumeCreation);
  }

  // --------------------------------------------------------------- history

  /** "Select required access" grants what was granted before and what is required, and changes no
      detail. */
  lemma SelectMeans(a: Access, required: seq<Capability>, c: Capability, d: Detail)
    ensures c in Next(a, Select(required)).capabilities <==> c in a.capabilities || c in required
    ensures Has(Next(a, Select(required)), d) <==> Has(a, d)
  {
  }

  /** What one switch does to one detail. */
  lemma DetailStep(a: Access, s: Switch, d: Detail)
    ensures Has(Next(a, s), d) <==>
            match s
            case Reset => false
            case Select(_) => Has(a, d)
            case Clear => Has(a, d)
            case ToggleCapability(c, on) => Has(a, d) && (on || Requirement(d) != Some(c))
            case Toggle(e, on) => if d == e then on else Has(a, d)
  {
    match s
    case Reset => NothingHeld(d);
    case Select(required) => SelectMeans(a, required, ImagesPrune, d);
    case Clear =>
    case ToggleCapability(c, on) => CapabilitySwitchMeans(a, c, on, c, d);
    case Toggle(e, on) => ToggleSets(a, e, on, d);
  }

  lemma NothingHeld(d: Detail)
    ensures !Has(NOTHING, d)
  {
  }

  /** What one switch does to one capability. */
  lemma CapabilityStep(a: Access, s: Switch, c: Capability)
    ensures c in Next(a, s).capabilities <==>
            match s
            case Reset => false
            case Select(required) => c in a.capabilities || c in required
            case Clear => false
            case ToggleCapability(d, on) => if d == c then on else c in a.capabilities
            case Toggle(e, on) => if Requirement(e) == Some(c) then Needed(Next(a, s), c) else c in a.capabilities
  {
    match s
    case Reset =>
    case Select(required) => SelectMeans(a, required, c, Pruning);
    case Clear =>
    case ToggleCapability(d, on) => CapabilitySwitchMeans(a, d, on, c, Pruning);
    case Toggle(e, on) => ToggleCouples(a, e, on, c);
  }

  /** Whether the detail is granted, told from the switches alone: the last one that concerns it
      decides. */
  predicate DetailHeld(run: seq<Switch>, d: Detail)
    decreases |run|
  {
    if run == [] then false
    else
      var before := run[..|run| - 1];
      match run[|run| - 1]
      case Reset => false
      case Select(_) => DetailHeld(before, d)
      case Clear => DetailHeld(before, d)
      case ToggleCapability(c, on) => DetailHeld(before, d) && (on || Requirement(d) != Some(c))
      case Toggle(e, on) => if d == e then on else DetailHeld(before, d)
  }

  predicate HeldFor(run: seq<Switch>, d: Detail, c: Capability) {
    DetailHeld(run, d) && Requirement(d) == Some(c)
  }

  /** The same for a capability; a detail switch leaves its own capability granted exactly when some held
      detail requires it. */
  ghost predicate CapabilityHeld(run: seq<Switch>, c: Capability)
    decreases |run|
  {
    if run == [] then false
    else
      var before := run[..|run| - 1];
      match run[|run| - 1]
      case Reset => false
      case Select(required) => c in required || CapabilityHeld(before, c)
      case Clear => false
      case ToggleCapability(d, on) => if d == c then on else CapabilityHeld(before, c)
      case Toggle(e, _) => if Requirement(e) == Some(c) then exists d :: HeldFor(run, d, c) else CapabilityHeld(before, c)
  }

  lemma {:induction false} AfterSnoc(a: Access, run: seq<Switch>)
    requires run != []
    ensures After(a, run) == Next(After(a, run[..|run| - 1]), run[|run| - 1])
    decreases |run|
  {
    var front := run[..|run| - 1];
    if |run| == 1 {
      assert run[1..] == [];
    } else {
      assert run[1..][..|run| - 2] == front[1..];
      AfterSnoc(Next(a, run[0]), run[1..]);
    }
  }

  lemma {:induction false} DetailsFromHistory(run: seq<Switch>, d: Detail)
    ensures Has(After(NOTHING, run), d) <==> DetailHeld(run, d)
    decreases |run|
  {
    if run == [] {
      NothingHeld(d);
    } else {
      var front := run[..|run| - 1];
      AfterSnoc(NOTHING, run);
      DetailsFromHistory(front, d);
      DetailStep(After(NOTHING, front), run[|run| - 1], d);
    }
  }

  lemma NeededFromHistory(run: seq<Switch>, c: Capability)
    ensures Needed(After(NOTHING, run), c) <==> exists d :: HeldFor(run, d, c)
  {
    forall d
      ensures Needing(After(NOTHING, run), d, c) <==> HeldFor(run, d, c)
    {
      DetailsFromHistory(run, d);
    }
  }

  lemma {:induction false} CapabilitiesFromHistory(run: seq<Switch>, c: Capability)
    ensures c in After(NOTHING, run).capabilities <==> CapabilityHeld(run, c)
    decreases |run|
  {
    if run != [] {
      var front := run[..|run| - 1];
      AfterSnoc(NOTHING, run);
      CapabilitiesFromHistory(front, c);
      CapabilityStep(After(NOTHING, front), run[|run| - 1], c);
      NeededFromHistory(run, c);
    }
  }

  /** From the arrival of a candidate on, what is granted after any run is what its switches say. */
  lemma ReviewFollowsSwitches(earlier: Access, run: seq<Switch>, d: Detail, c: Capability)
    ensures Has(After(Next(earlier, Reset), run), d) <==> DetailHeld(run, d)
    ensures c in After(Next(earlier, Reset), run).capabilities <==> CapabilityHeld(run, c)
  {
    DetailsFromHistory(run, d);
    CapabilitiesFromHistory(run, c);
  }

  /** The switches that take a granted capability away. */
  ghost predicate Revokes(a: Access, s: Switch, c: Capability) {
    s == Reset || s == Clear || s == ToggleCapability(c, false) ||
    (s.Toggle? && Requirement(s.detail) == Some(c) && !Needed(Next(a, s), c))
  }

  ghost predicate NeverRevoked(a: Access, run: seq<Switch>, c: Capability)
    decreases |run|
  {
    run == [] || (!Revokes(a, run[0], c) && NeverRevoked(Next(a, run[0]), run[1..], c))
  }

  ghost predicate AlwaysGranted(a: Access, run: seq<Switch>, c: Capability)
    decreases |run|
  {
    c in a.capabilities && (run == [] || AlwaysGranted(Next(a, run[0]), run[1..], c))
  }

  lemma {:induction false} GrantedUntilRevoked(a: Access, run: seq<Switch>, c: Capability)
    requires c in a.capabilities
    ensures AlwaysGranted(a, run, c) <==> NeverRevoked(a, run, c)
    decreases |run|
  {
    if run != [] {
      CapabilityStep(a, run[0], c);
      if c in Next(a, run[0]).capabilities {
        GrantedUntilRevoked(Next(a, run[0]), run[1..], c);
      }
    }
  }

  /** A required capability is granted from "Select required access" on, at every moment until a reset, a
      clear, its own switch, or the switch of the last detail that needs it takes it away. */
  lemma RequiredStaysGranted(a: Access, required: seq<Capability>, run: seq<Switch>, c: Capability)
    requires c in required
    ensures AlwaysGranted(Next(a, Select(required)), run, c) <==> NeverRevoked(Next(a, Select(required)), run, c)
  {
    SelectMeans(a, required, c, Pruning);
    GrantedUntilRevoked(Next(a, Select(required)), run, c);
  }

  // ---------------------------------------------------------------- limits

  /** The page shows a switch only for what the candidate requests. */
  predicate Offered(s: Switch, requested: Access, required: seq<Capability>) {
    match s
    case Reset => true
    case Select(list) => list == required
    case Clear => true
    case ToggleCapability(c, _) => c in requested.capabilities
    case Toggle(d, _) => Has(requested, d)
  }

  ghost predicate Allows(requested: Access, required: seq<Capability>, c: Capability) {
    c in requested.capabilities || c in required || Needed(requested, c)
  }

  /** Nothing is granted that was not requested: no detail, and no capability that is not requested,
      required or coupled to a requested detail. */
  ghost predicate Within(a: Access, requested: Access, required: seq<Capability>) {
    (forall d :: Has(a, d) ==> Has(requested, d)) &&
    (forall c :: c in a.capabilities ==> Allows(requested, required, c))
  }

  lemma StepStaysWithin(a: Access, s: Switch, requested: Access, required: seq<Capability>)
    requires Within(a, requested, required) && Offered(s, requested, required)
    ensures Within(Next(a, s), requested, required)
  {
    var t := Next(a, s);
    forall d | Has(t, d)
      ensures Has(requested, d)
    {
      match s
      case Toggle(e, on) => ToggleSets(a, e, on, d);
      case ToggleCapability(c, on) => CapabilitySwitchMeans(a, c, on, c, d);
      case _ =>
    }
    forall c | c in t.capabilities
      ensures Allows(requested, required, c)
    {
      match s
      case Toggle(e, on) =>
        ToggleCouples(a, e, on, c);
        if Requirement(e) == Some(c) {
          assert Needing(requested, e, c);
        }
      case ToggleCapability(e, on) => CapabilitySwitchMeans(a, e, on, c, Pruning);
      case _ =>
    }
  }

  lemma {:induction false} RunStaysWithin(a: Access, run: seq<Switch>, requested: Access, required: seq<Capability>)
    requires Within(a, requested, required) && forall s :: s in run ==> Offered(s, requested, required)
    ensures Within(After(a, run), requested, required)
    decreases |run|
  {
    if run != [] {
      assert run[0] in run && forall s :: s in run[1..] ==> s in run;
      StepStaysWithin(a, run[0], requested, required);
      RunStaysWithin(Next(a, run[0]), run[1..], requested, required);
    }
  }

  /** The consent bound: from the arrival of a candidate on, no run of its switches grants more than
      the candidate asks for, and the reset itself grants nothing. */
  lemma ReviewStaysWithin(earlier: Access, run: seq<Switch>, requested: Access, required: seq<Capability>)
    requires forall s :: s in run ==> Offered(s, requested, required)
    ensures Within(After(Next(earlier, Reset), run), requested, required)
    ensures forall d :: !Has(Next(earlier, Reset), d)
  {
    assert forall d :: !Has(NOTHING, d);
    RunStaysWithin(NOTHING, run, requested, required);
  }

  /** No list that the page keys by selector holds a selector twice, and no capability is listed twice. */
  predicate ListedOnce(a: Access) {
    NoRepeats(a.capabilities) && NoRepeats(a.containers.selectors) && NoRepeats(a.networks.selectors) &&
    NoRepeats(a.volumes.selectors) && NoRepeats(a.images.read) && NoRepeats(a.images.use) &&
    NoRepeats(a.images.pull) && NoRepeats(a.images.remove)
  }

  lemma StepKeepsListedOnce(a: Access, s: Switch)
    requires ListedOnce(a)
    ensures ListedOnce(Next(a, s))
  {
    match s
    case Toggle(d, on) => ToggledListedOnce(a, d, on);
    case ToggleCapability(c, on) =>
      ClearedListedOnce(a, c);
      GrantingListedOnce(if on then a else Cleared(a, c), c, on);
    case _ =>
  }

  lemma GrantingListedOnce(a: Access, c: Capability, on: bool)
    requires ListedOnce(a)
    ensures ListedOnce(Granting(a, c, on))
  {
  }

  lemma ToggledListedOnce(a: Access, d: Detail, on: bool)
    requires ListedOnce(a)
    ensures ListedOnce(Toggled(a, d, on))
  {
    var b := Changed(a, d, on);
    ChangedListedOnce(a, d, on);
    match d
    case ContainerCreation => GrantingListedOnce(b, ContainersCreate, on || a.images.use != []);
    case ImageDetail(verb, _) =>
      GrantingListedOnce(b, ImageCapability(verb),
                         ImageList(b.images, verb) != [] || (ImageCapability(verb) == ContainersCreate && a.containers.create));
    case Pruning => GrantingListedOnce(b, ImagesPrune, on);
    case NetworkCreation => GrantingListedOnce(b, NetworksCreate, on);
    case VolumeCreation => GrantingListedOnce(b, VolumesWrite, on);
    case FileDetail(verb, _) => GrantingListedOnce(b, FileCapability(verb), AnyFile(b.files, verb));
    case VariableDetail(verb, _) =>
      GrantingListedOnce(b, VariableCapability(verb), VariableList(b.environment, verb) != []);
    case _ =>
  }

  lemma ChangedListedOnce(a: Access, d: Detail, on: bool)
    requires ListedOnce(a)
    ensures ListedOnce(Changed(a, d, on))
  {
    match d
    case ImageDetail(verb, x) => ImageKeepsListedOnce(a, verb, x, on);
    case _ =>
  }

  lemma ImageKeepsListedOnce(a: Access, verb: ImageVerb, x: Selector, on: bool)
    requires ListedOnce(a)
    ensures ListedOnce(Changed(a, ImageDetail(verb, x), on))
  {
    match verb
    case ReadImage =>
    case UseImage =>
    case PullImage =>
    case RemoveImage =>
  }

  lemma ClearedListedOnce(a: Access, c: Capability)
    requires ListedOnce(a)
    ensures ListedOnce(Cleared(a, c))
  {
  }

  lemma {:induction false} RunKeepsListedOnce(a: Access, run: seq<Switch>)
    requires ListedOnce(a)
    ensures ListedOnce(After(a, run))
    decreases |run|
  {
    if run != [] {
      StepKeepsListedOnce(a, run[0]);
      RunKeepsListedOnce(Next(a, run[0]), run[1..]);
    }
  }
}
