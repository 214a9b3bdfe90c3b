/** The editable App Definition and the typed commands of `app_definition_document.rs`. */
module AppModel {
  import opened Wrappers
  import opened RecipeModel

  /** An ordered registry: entries in order, each key once. */
  type Registry = seq<Entry<string>>

  datatype PermissionSets = PermissionSets(baseline: Option<string>, elevated: Option<string>)

  datatype App = App(
    id: string,
    name: string,
    description: Option<string>,
    category: Option<string>,
    packageId: string,
    launcherActivity: Option<string>,
    artifacts: Registry,
    permissionSets: Option<PermissionSets>,
    targets: Registry,
    metadata: Registry)

  datatype Command =
    | SetId(id: string)
    | SetName(name: string)
    | SetDescription(description: Option<string>)
    | SetCategory(category: Option<string>)
    | SetPackageId(packageId: string)
    | SetLauncherActivity(launcherActivity: Option<string>)
    | AddArtifact(artifactId: string, value: string)
    | ReplaceArtifact(artifactId: string, value: string)
    | RemoveArtifact(artifactId: string)
    | ReorderArtifact(artifactId: string, toIndex: nat)
    | SetPermissionSet(elevated: bool, permissions: Option<string>)
    | AddTarget(targetId: string, value: string)
    | ReplaceTarget(targetId: string, value: string)
    | RemoveTarget(targetId: string)
    | ReorderTarget(targetId: string, toIndex: nat)
    | SetMetadataEntry(key: string, value: string)
    | RemoveMetadataEntry(key: string)

  // ---- Registries ------------------------------------------------------------------------

  function IndexOf(r: Registry, key: string): (i: Option<nat>)
    ensures i.Some? ==> i.value < |r| && r[i.value].key == key
    ensures i.None? ==> forall k :: 0 <= k < |r| ==> r[k].key != key
    ensures i.Some? ==> forall k :: 0 <= k < i.value ==> r[k].key != key
  {
    if r == [] then None
    else if r[0].key == key then Some(0)
    else
      var rest := IndexOf(r[1..], key);
      if rest.None? then None else Some(rest.value + 1)
  }

  ghost predicate KeysAreDistinct(r: Registry) {
    forall i, j :: 0 <= i < j < |r| ==> r[i].key != r[j].key
  }

  function RemoveAt(r: Registry, i: nat): Registry
    requires i < |r|
  {
    r[..i] + r[i + 1..]
  }

  function InsertAt(r: Registry, i: nat, e: Entry<string>): Registry
    requires i <= |r|
  {
    r[..i] + [e] + r[i..]
  }

  function Added(r: Registry, key: string, value: string): Option<Registry> {
    if IndexOf(r, key).Some? then None else Some(r + [Entry(key, value)])
  }

  function Replaced(r: Registry, key: string, value: string): Option<Registry> {
    var i := IndexOf(r, key);
    if i.None? then None else Some(r[i.value := Entry(key, value)])
  }

  function Removed(r: Registry, key: string): Option<Registry> {
    var i := IndexOf(r, key);
    if i.None? then None else Some(RemoveAt(r, i.value))
  }

  /** `IndexMap::insert`: replace in place or append. */
  function Upserted(r: Registry, key: string, value: string): Registry {
    var i := IndexOf(r, key);
    if i.None? then r + [Entry(key, value)] else r[i.value := Entry(key, value)]
  }

  /** Move one entry to an index; the other entries keep their order. */
  function Reordered(r: Registry, key: string, toIndex: nat): Option<Registry> {
    var i := IndexOf(r, key);
    if i.None? || toIndex >= |r| then None
    else if i.value == toIndex then Some(r)
    else Some(InsertAt(RemoveAt(r, i.value), toIndex, r[i.value]))
  }

  lemma OnlyIndexOf(r: Registry, key: string, i: nat)
    requires i < |r| && r[i].key == key && forall k :: 0 <= k < |r| && k != i ==> r[k].key != key
    ensures IndexOf(r, key) == Some(i)
  {
  }

  lemma RemoveUndoesInsert(r: Registry, i: nat, e: Entry<string>)
    requires i <= |r|
    ensures |InsertAt(r, i, e)| == |r| + 1 && InsertAt(r, i, e)[i] == e && RemoveAt(InsertAt(r, i, e), i) == r
    ensures forall k :: 0 <= k < |r| + 1 && k != i ==> InsertAt(r, i, e)[k] == if k < i then r[k] else r[k - 1]
  {
  }

  lemma InsertUndoesRemove(r: Registry, i: nat)
    requires i < |r|
    ensures |RemoveAt(r, i)| == |r| - 1 && InsertAt(RemoveAt(r, i), i, r[i]) == r
    ensures forall k :: 0 <= k < |r| - 1 ==> RemoveAt(r, i)[k] == if k < i then r[k] else r[k + 1]
  {
  }

  /**
   Reordering puts the entry at the requested index, leaves the others in
   order, and is undone by reordering the same entry back.
   */
  lemma ReorderMovesOneEntry(r: Registry, key: string, toIndex: nat)
    requires KeysAreDistinct(r) && Reordered(r, key, toIndex).Some?
    ensures var from, after := IndexOf(r, key).value, Reordered(r, key, toIndex).value;
            && |after| == |r|
            && after[toIndex] == r[from]
            && RemoveAt(after, toIndex) == RemoveAt(r, from)
            && IndexOf(after, key) == Some(toIndex)
            && Reordered(after, key, from) == Some(r)
  {
    var from := IndexOf(r, key).value;
    var others := RemoveAt(r, from);
    InsertUndoesRemove(r, from);
    RemoveUndoesInsert(others, toIndex, r[from]);
    var after := InsertAt(others, toIndex, r[from]);
    assert Reordered(r, key, toIndex) == Some(after);
    forall k | 0 <= k < |after| && k != toIndex ensures after[k].key != key {
      var o := if k < toIndex then k else k - 1;
      assert after[k] == others[o];
      assert others[o] == r[if o < from then o else o + 1];
    }
    OnlyIndexOf(after, key, toIndex);
  }

  // ---- Commands -----------------------------------------------------------------------------

  predicate ChangesIdentity(c: Command) {
    c.SetId? || c.SetPackageId?
  }

  function WithPermissionSet(sets: Option<PermissionSets>, elevated: bool, value: Option<string>)
    : Option<PermissionSets>
  {
    var current := if sets.None? then PermissionSets(None, None) else sets.value;
    var next := if elevated then current.(elevated := value) else current.(baseline := value);
    if next.baseline.None? && next.elevated.None? then None else Some(next)
  }

  function WithArtifacts(app: App, artifacts: Option<Registry>): (r: Option<App>)
    ensures r.Some? ==> r.value.id == app.id && r.value.packageId == app.packageId
  {
    if artifacts.None? then None else Some(app.(artifacts := artifacts.value))
  }

  function WithTargets(app: App, targets: Option<Registry>): (r: Option<App>)
    ensures r.Some? ==> r.value.id == app.id && r.value.packageId == app.packageId
  {
    if targets.None? then None else Some(app.(targets := targets.value))
  }

  /** `None` is a rejected command, such as adding an entry that exists. */
  function ApplyCommand(app: App, c: Command): (r: Option<App>)
    ensures r.Some? && !ChangesIdentity(c) ==> r.value.id == app.id && r.value.packageId == app.packageId
  {
    match c
    case SetId(id) => Some(app.(id := id))
    case SetName(name) => Some(app.(name := name))
    case SetDescription(description) => Some(app.(description := description))
    case SetCategory(category) => Some(app.(category := category))
    case SetPackageId(packageId) => Some(app.(packageId := packageId))
    case SetLauncherActivity(activity) => Some(app.(launcherActivity := activity))
    case AddArtifact(id, value) => WithArtifacts(app, Added(app.artifacts, id, value))
    case ReplaceArtifact(id, value) => WithArtifacts(app, Replaced(app.artifacts, id, value))
    case RemoveArtifact(id) => WithArtifacts(app, Removed(app.artifacts, id))
    case ReorderArtifact(id, toIndex) => WithArtifacts(app, Reordered(app.artifacts, id, toIndex))
    case SetPermissionSet(elevated, value) =>
      Some(app.(permissionSets := WithPermissionSet(app.permissionSets, elevated, value)))
    case AddTarget(id, value) => WithTargets(app, Added(app.targets, id, value))
    case ReplaceTarget(id, value) => WithTargets(app, Replaced(app.targets, id, value))
    case RemoveTarget(id) => WithTargets(app, Removed(app.targets, id))
    case ReorderTarget(id, toIndex) => WithTargets(app, Reordered(app.targets, id, toIndex))
    case SetMetadataEntry(key, value) => Some(app.(metadata := Upserted(app.metadata, key, value)))
    case RemoveMetadataEntry(key) =>
      var metadata := Removed(app.metadata, key);
      if metadata.None? then None else Some(app.(metadata := metadata.value))
  }

  // ---- What each command does to the registries ----------------------------------------------

  function Lookup(r: Registry, key: string): Option<string> {
    var i := IndexOf(r, key);
    if i.None? then None else Some(r[i.value].value)
  }

  ghost predicate RegistriesAreSound(app: App) {
    KeysAreDistinct(app.artifacts) && KeysAreDistinct(app.targets) && KeysAreDistinct(app.metadata)
  }

  /** A key held at a position is found there, since keys are distinct. */
  lemma LookupAt(r: Registry, i: nat)
    requires KeysAreDistinct(r) && i < |r|
    ensures IndexOf(r, r[i].key) == Some(i) && Lookup(r, r[i].key) == Some(r[i].value)
  {
    OnlyIndexOf(r, r[i].key, i);
  }

  /** Two registries agree on a key if each entry under it in one is in the other. */
  lemma LookupAgrees(a: Registry, b: Registry, key: string)
    requires KeysAreDistinct(a) && KeysAreDistinct(b)
    requires forall e :: e in a && e.key == key ==> e in b
    requires forall e :: e in b && e.key == key ==> e in a
    ensures Lookup(a, key) == Lookup(b, key)
  {
    var i, j := IndexOf(a, key), IndexOf(b, key);
    assert j.Some? ==> b[j.value] in b;
    if i.Some? {
      assert a[i.value] in a;
      var k :| 0 <= k < |b| && b[k] == a[i.value];
      LookupAt(b, k);
    }
  }

  lemma AddedEffect(r: Registry, id: string, value: string, key: string)
    requires KeysAreDistinct(r) && Added(r, id, value).Some?
    ensures KeysAreDistinct(Added(r, id, value).value)
    ensures Lookup(Added(r, id, value).value, key) == if key == id then Some(value) else Lookup(r, key)
  {
    var after := Added(r, id, value).value;
    if key == id {
      LookupAt(after, |r|);
    } else {
      LookupAgrees(after, r, key);
    }
  }

  lemma ReplacedEffect(r: Registry, id: string, value: string, key: string)
    requires KeysAreDistinct(r) && IndexOf(r, id).Some?
    ensures var after := r[IndexOf(r, id).value := Entry(id, value)];
            && KeysAreDistinct(after)
            && Lookup(after, key) == if key == id then Some(value) else Lookup(r, key)
  {
    var i := IndexOf(r, id).value;
    var after := r[i := Entry(id, value)];
    if key == id {
      LookupAt(after, i);
    } else {
      forall e | e in r && e.key == key ensures e in after {
        var k :| 0 <= k < |r| && r[k] == e;
        assert after[k] == e;
      }
      forall e | e in after && e.key == key ensures e in r {
        var k :| 0 <= k < |after| && after[k] == e;
        assert r[k] == e;
      }
      LookupAgrees(after, r, key);
    }
  }

  lemma RemovedEffect(r: Registry, id: string, key: string)
    requires KeysAreDistinct(r) && Removed(r, id).Some?
    ensures KeysAreDistinct(Removed(r, id).value)
    ensures Lookup(Removed(r, id).value, key) == if key == id then None else Lookup(r, key)
  {
    var i, after := IndexOf(r, id).value, Removed(r, id).value;
    InsertUndoesRemove(r, i);
    if key == id {
      forall k | 0 <= k < |after| ensures after[k].key != id {
        assert after[k] == r[if k < i then k else k + 1];
      }
    } else {
      SameEntriesBut(r, i);
      LookupAgrees(after, r, key);
    }
  }

  lemma SameEntriesBut(r: Registry, i: nat)
    requires i < |r|
    ensures forall e :: e in r && e != r[i] ==> e in RemoveAt(r, i)
    ensures forall e :: e in RemoveAt(r, i) ==> e in r
  {
    InsertUndoesRemove(r, i);
    forall e | e in r && e != r[i] ensures e in RemoveAt(r, i) {
      var k :| 0 <= k < |r| && r[k] == e;
      assert RemoveAt(r, i)[if k < i then k else k - 1] == e;
    }
  }

  lemma ReorderedEffect(r: Registry, id: string, toIndex: nat, key: string)
    requires KeysAreDistinct(r) && Reordered(r, id, toIndex).Some?
    ensures KeysAreDistinct(Reordered(r, id, toIndex).value)
    ensures Lookup(Reordered(r, id, toIndex).value, key) == Lookup(r, key)
  {
    var from, after := IndexOf(r, id).value, Reordered(r, id, toIndex).value;
    ReorderMovesOneEntry(r, id, toIndex);
    SameEntriesBut(r, from);
    SameEntriesBut(after, toIndex);
    assert r[from] in r && after[toIndex] in after;
    ReorderedKeysAreDistinct(r, id, toIndex);
    LookupAgrees(after, r, key);
  }

  lemma RemoveAtKeepsDistinct(r: Registry, i: nat)
    requires KeysAreDistinct(r) && i < |r|
    ensures KeysAreDistinct(RemoveAt(r, i))
    ensures forall k :: 0 <= k < |RemoveAt(r, i)| ==> RemoveAt(r, i)[k].key != r[i].key
  {
    InsertUndoesRemove(r, i);
  }

  lemma InsertAtKeepsDistinct(r: Registry, i: nat, e: Entry<string>)
    requires KeysAreDistinct(r) && i <= |r| && forall k :: 0 <= k < |r| ==> r[k].key != e.key
    ensures KeysAreDistinct(InsertAt(r, i, e))
  {
    RemoveUndoesInsert(r, i, e);
  }

  lemma ReorderedKeysAreDistinct(r: Registry, id: string, toIndex: nat)
    requires KeysAreDistinct(r) && Reordered(r, id, toIndex).Some?
    ensures KeysAreDistinct(Reordered(r, id, toIndex).value)
  {
    var from := IndexOf(r, id).value;
    InsertUndoesRemove(r, from);
    RemoveAtKeepsDistinct(r, from);
    InsertAtKeepsDistinct(RemoveAt(r, from), toIndex, r[from]);
  }

  /** Which commands are rejected. */
  predicate IsApplicable(app: App, c: Command) {
    match c
    case AddArtifact(id, _) => Lookup(app.artifacts, id).None?
    case ReplaceArtifact(id, _) => Lookup(app.artifacts, id).Some?
    case RemoveArtifact(id) => Lookup(app.artifacts, id).Some?
    case ReorderArtifact(id, toIndex) => Lookup(app.artifacts, id).Some? && toIndex < |app.artifacts|
    case AddTarget(id, _) => Lookup(app.targets, id).None?
    case ReplaceTarget(id, _) => Lookup(app.targets, id).Some?
    case RemoveTarget(id) => Lookup(app.targets, id).Some?
    case ReorderTarget(id, toIndex) => Lookup(app.targets, id).Some? && toIndex < |app.targets|
    case RemoveMetadataEntry(key) => Lookup(app.metadata, key).Some?
    case _ => true
  }

  /** What the artifact registry holds under a key after a command. */
  function ArtifactAfter(app: App, c: Command, key: string): Option<string> {
    match c
    case AddArtifact(id, value) => if key == id then Some(value) else Lookup(app.artifacts, key)
    case ReplaceArtifact(id, value) => if key == id then Some(value) else Lookup(app.artifacts, key)
    case RemoveArtifact(id) => if key == id then None else Lookup(app.artifacts, key)
    case _ => Lookup(app.artifacts, key)
  }

  function TargetAfter(app: App, c: Command, key: string): Option<string> {
    match c
    case AddTarget(id, value) => if key == id then Some(value) else Lookup(app.targets, key)
    case ReplaceTarget(id, value) => if key == id then Some(value) else Lookup(app.targets, key)
    case RemoveTarget(id) => if key == id then None else Lookup(app.targets, key)
    case _ => Lookup(app.targets, key)
  }

  function MetadataAfter(app: App, c: Command, key: string): Option<string> {
    match c
    case SetMetadataEntry(id, value) => if key == id then Some(value) else Lookup(app.metadata, key)
    case RemoveMetadataEntry(id) => if key == id then None else Lookup(app.metadata, key)
    case _ => Lookup(app.metadata, key)
  }

  lemma ArtifactCommandEffect(app: App, c: Command, key: string)
    requires RegistriesAreSound(app) && ApplyCommand(app, c).Some?
    ensures var after := ApplyCommand(app, c).value;
            KeysAreDistinct(after.artifacts) && Lookup(after.artifacts, key) == ArtifactAfter(app, c, key)
  {
    match c
    case AddArtifact(id, value) => AddedEffect(app.artifacts, id, value, key);
    case ReplaceArtifact(id, value) => ReplacedEffect(app.artifacts, id, value, key);
    case RemoveArtifact(id) => RemovedEffect(app.artifacts, id, key);
    case ReorderArtifact(id, toIndex) => ReorderedEffect(app.artifacts, id, toIndex, key);
    case _ =>
  }

  lemma TargetCommandEffect(app: App, c: Command, key: string)
    requires RegistriesAreSound(app) && ApplyCommand(app, c).Some?
    ensures var after := ApplyCommand(app, c).value;
            KeysAreDistinct(after.targets) && Lookup(after.targets, key) == TargetAfter(app, c, key)
  {
    match c
    case AddTarget(id, value) => AddedEffect(app.targets, id, value, key);
    case ReplaceTarget(id, value) => ReplacedEffect(app.targets, id, value, key);
    case RemoveTarget(id) => RemovedEffect(app.targets, id, key);
    case ReorderTarget(id, toIndex) => ReorderedEffect(app.targets, id, toIndex, key);
    case _ =>
  }

  lemma MetadataCommandEffect(app: App, c: Command, key: string)
    requires RegistriesAreSound(app) && ApplyCommand(app, c).Some?
    ensures var after := ApplyCommand(app, c).value;
            KeysAreDistinct(after.metadata) && Lookup(after.metadata, key) == MetadataAfter(app, c, key)
  {
    match c
    case SetMetadataEntry(id, value) =>
      if IndexOf(app.metadata, id).Some? {
        ReplacedEffect(app.metadata, id, value, key);
      } else {
        AddedEffect(app.metadata, id, value, key);
      }
    case RemoveMetadataEntry(id) => RemovedEffect(app.metadata, id, key);
    case _ =>
  }

  /**
   Every command keeps the registries sound, is rejected exactly when its entry
   is missing, already there or out of range, and changes the entry it names
   and no other, in each of the three registries.
   */
  lemma CommandEffect(app: App, c: Command, key: string)
    requires RegistriesAreSound(app)
    ensures ApplyCommand(app, c).Some? <==> IsApplicable(app, c)
    ensures ApplyCommand(app, c).Some? ==>
              var after := ApplyCommand(app, c).value;
              && RegistriesAreSound(after)
              && Lookup(after.artifacts, key) == ArtifactAfter(app, c, key)
              && Lookup(after.targets, key) == TargetAfter(app, c, key)
              && Lookup(after.metadata, key) == MetadataAfter(app, c, key)
  {
    if ApplyCommand(app, c).Some? {
      ArtifactCommandEffect(app, c, key);
      TargetCommandEffect(app, c, key);
      MetadataCommandEffect(app, c, key);
    }
  }

  /** Entries are lost to their own removal command only. */
  lemma OnlyDeletionsRemoveEntries(app: App, c: Command, key: string)
    requires RegistriesAreSound(app) && ApplyCommand(app, c).Some?
    ensures var after := ApplyCommand(app, c).value;
            && (Lookup(app.artifacts, key).Some? && Lookup(after.artifacts, key).None? <==>
                  c == RemoveArtifact(key))
            && (Lookup(app.targets, key).Some? && Lookup(after.targets, key).None? <==>
                  c == RemoveTarget(key))
  {
    CommandEffect(app, c, key);
  }

  // ---- The plain fields, the permission sets and the order ------------------------------------

  function BaselineOf(app: App): Option<string> {
    if app.permissionSets.None? then None else app.permissionSets.value.baseline
  }

  function ElevatedOf(app: App): Option<string> {
    if app.permissionSets.None? then None else app.permissionSets.value.elevated
  }

  /** Each plain field is the command's if the command sets it, and the old one otherwise. */
  lemma FieldEffect(app: App, c: Command)
    requires ApplyCommand(app, c).Some?
    ensures var after := ApplyCommand(app, c).value;
            && after.id == (if c.SetId? then c.id else app.id)
            && after.name == (if c.SetName? then c.name else app.name)
            && after.description == (if c.SetDescription? then c.description else app.description)
            && after.category == (if c.SetCategory? then c.category else app.category)
            && after.packageId == (if c.SetPackageId? then c.packageId else app.packageId)
            && after.launcherActivity ==
                 if c.SetLauncherActivity? then c.launcherActivity else app.launcherActivity
  {
  }

  /** One permission set is replaced, the other stays, and without either there are none. */
  lemma PermissionSetEffect(app: App, c: Command)
    requires ApplyCommand(app, c).Some?
    ensures var after := ApplyCommand(app, c).value;
            && BaselineOf(after) == (if c.SetPermissionSet? && !c.elevated then c.permissions else BaselineOf(app))
            && ElevatedOf(after) == (if c.SetPermissionSet? && c.elevated then c.permissions else ElevatedOf(app))
            && (c.SetPermissionSet? ==>
                  (after.permissionSets.None? <==> BaselineOf(after).None? && ElevatedOf(after).None?))
            && (!c.SetPermissionSet? ==> after.permissionSets == app.permissionSets)
  {
  }

  /** A catalog document refuses exactly the commands that can change an id or a package id. */
  lemma IdentityCommands(c: Command)
    ensures ChangesIdentity(c) <==>
            exists app: App ::
              ApplyCommand(app, c).Some?
              && (ApplyCommand(app, c).value.id != app.id || ApplyCommand(app, c).value.packageId != app.packageId)
  {
    var blank := App("", "", None, None, "", None, [], None, [], []);
    if c.SetId? {
      assert ApplyCommand(blank.(id := c.id + "'"), c).Some?;
    }
    if c.SetPackageId? {
      assert ApplyCommand(blank.(packageId := c.packageId + "'"), c).Some?;
    }
  }

  function KeysOf(r: Registry): seq<string> {
    seq(|r|, i requires 0 <= i < |r| => r[i].key)
  }

  /** The order of a registry's entries: new ones go last, and only a reordering moves the others. */
  ghost predicate KeepsOrder(before: seq<string>, after: seq<string>, added: Option<string>, removed: Option<string>) {
    match (added, removed)
    case (Some(key), _) => after == before + [key]
    case (None, Some(key)) =>
      exists i :: 0 <= i < |before| && before[i] == key && after == before[..i] + before[i + 1..]
    case (None, None) => after == before
  }

  ghost predicate IsReordering(before: seq<string>, after: seq<string>, key: string, toIndex: nat) {
    && toIndex < |after| && after[toIndex] == key
    && exists i :: 0 <= i < |before| && before[i] == key
                   && before[..i] + before[i + 1..] == after[..toIndex] + after[toIndex + 1..]
  }

  lemma KeysOfParts(r: Registry, s: Registry, i: nat)
    requires i <= |r|
    ensures KeysOf(r + s) == KeysOf(r) + KeysOf(s)
    ensures KeysOf(r[..i]) == KeysOf(r)[..i] && KeysOf(r[i..]) == KeysOf(r)[i..]
  {
  }

  lemma AddedOrder(r: Registry, key: string, value: string)
    ensures KeysOf(r + [Entry(key, value)]) == KeysOf(r) + [key]
  {
  }

  lemma ReplacedOrder(r: Registry, key: string, value: string)
    requires IndexOf(r, key).Some?
    ensures KeysOf(r[IndexOf(r, key).value := Entry(key, value)]) == KeysOf(r)
  {
  }

  lemma RemovedOrder(r: Registry, i: nat)
    requires i < |r|
    ensures KeysOf(RemoveAt(r, i)) == KeysOf(r)[..i] + KeysOf(r)[i + 1..]
  {
    InsertUndoesRemove(r, i);
  }

  lemma ReorderedOrder(r: Registry, key: string, toIndex: nat)
    requires KeysAreDistinct(r) && Reordered(r, key, toIndex).Some?
    ensures IsReordering(KeysOf(r), KeysOf(Reordered(r, key, toIndex).value), key, toIndex)
  {
    var from, after := IndexOf(r, key).value, Reordered(r, key, toIndex).value;
    ReorderMovesOneEntry(r, key, toIndex);
    RemovedOrder(r, from);
    RemovedOrder(after, toIndex);
    assert KeysOf(r)[from] == key && KeysOf(after)[toIndex] == key;
  }

  lemma ArtifactOrderEffect(app: App, c: Command)
    requires RegistriesAreSound(app) && ApplyCommand(app, c).Some?
    ensures var before, after := KeysOf(app.artifacts), KeysOf(ApplyCommand(app, c).value.artifacts);
            if c.ReorderArtifact? then IsReordering(before, after, c.artifactId, c.toIndex)
            else KeepsOrder(before, after, if c.AddArtifact? then Some(c.artifactId) else None,
                            if c.RemoveArtifact? then Some(c.artifactId) else None)
  {
    match c
    case AddArtifact(id, value) => AddedOrder(app.artifacts, id, value);
    case ReplaceArtifact(id, value) => ReplacedOrder(app.artifacts, id, value);
    case RemoveArtifact(id) => RemovedOrder(app.artifacts, IndexOf(app.artifacts, id).value);
    case ReorderArtifact(id, toIndex) => ReorderedOrder(app.artifacts, id, toIndex);
    case _ =>
  }

  lemma TargetOrderEffect(app: App, c: Command)
    requires RegistriesAreSound(app) && ApplyCommand(app, c).Some?
    ensures var before, after := KeysOf(app.targets), KeysOf(ApplyCommand(app, c).value.targets);
            if c.ReorderTarget? then IsReordering(before, after, c.targetId, c.toIndex)
            else KeepsOrder(before, after, if c.AddTarget? then Some(c.targetId) else None,
                            if c.RemoveTarget? then Some(c.targetId) else None)
  {
    match c
    case AddTarget(id, value) => AddedOrder(app.targets, id, value);
    case ReplaceTarget(id, value) => ReplacedOrder(app.targets, id, value);
    case RemoveTarget(id) => RemovedOrder(app.targets, IndexOf(app.targets, id).value);
    case ReorderTarget(id, toIndex) => ReorderedOrder(app.targets, id, toIndex);
    case _ =>
  }

  lemma MetadataOrderEffect(app: App, c: Command)
    requires RegistriesAreSound(app) && ApplyCommand(app, c).Some?
    ensures var before, after := KeysOf(app.metadata), KeysOf(ApplyCommand(app, c).value.metadata);
            KeepsOrder(before, after, if c.SetMetadataEntry? && c.key !in before then Some(c.key) else None,
                       if c.RemoveMetadataEntry? then Some(c.key) else None)
  {
    match c
    case SetMetadataEntry(key, value) =>
      if IndexOf(app.metadata, key).Some? {
        ReplacedOrder(app.metadata, key, value);
        assert KeysOf(app.metadata)[IndexOf(app.metadata, key).value] == key;
      } else {
        AddedOrder(app.metadata, key, value);
      }
    case RemoveMetadataEntry(key) => RemovedOrder(app.metadata, IndexOf(app.metadata, key).value);
    case _ =>
  }
}
