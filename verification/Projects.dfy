/** Projects, patches and their JSON form: rust/src/domain/project.rs and ProjectPatch::apply. */
module Projects {
  import opened Wrappers
  import opened Json

  datatype ProjectType = Ec2 | Ec2Vm | Rds | OnPrem | SqlPayg

  function ProjectTypeName(t: ProjectType): string {
    match t
    case Ec2 => "ec2"
    case Ec2Vm => "ec2_vm"
    case Rds => "rds"
    case OnPrem => "on_prem"
    case SqlPayg => "sql_payg"
  }

  /** Project settings: the project type, and the remaining members as serialized. */
  datatype Settings = Settings(projectType: ProjectType, fields: map<string, Json>)

  /** A workload: its source type, and the remaining members as serialized. */
  datatype Resource = Resource(sourceType: ProjectType, fields: map<string, Json>)

  datatype EditableProject = EditableProject(
    name: string,
    description: Option<string>,
    settings: Settings,
    resources: seq<Resource>,
    awsPriceSnapshotId: Option<string>,
    azurePriceSnapshotId: Option<string>)

  /** Candidate changes: an absent member keeps the current value. */
  datatype ProjectPatch = ProjectPatch(
    name: Option<string>,
    description: Option<string>,
    settings: Option<Settings>,
    resources: Option<seq<Resource>>)

  function UnwrapOr<T>(o: Option<T>, fallback: T): T {
    if o.Some? then o.value else fallback
  }

  function Apply(patch: ProjectPatch, base: EditableProject): EditableProject {
    EditableProject(
      UnwrapOr(patch.name, base.name),
      if patch.description.Some? then patch.description else base.description,
      UnwrapOr(patch.settings, base.settings),
      UnwrapOr(patch.resources, base.resources),
      base.awsPriceSnapshotId,
      base.azurePriceSnapshotId)
  }

  // ---- serialization ----

  function SettingsValue(s: Settings): Json {
    Object(s.fields["project_type" := String(ProjectTypeName(s.projectType))])
  }

  function ResourceValue(r: Resource): Json {
    Object(r.fields["source_type" := String(ProjectTypeName(r.sourceType))])
  }

  function OptionalText(o: Option<string>): Json {
    if o.Some? then String(o.value) else Null
  }

  function Members(p: EditableProject): map<string, Json> {
    map[
      "name" := String(p.name),
      "description" := OptionalText(p.description),
      "settings" := SettingsValue(p.settings),
      "resources" := Array(seq(|p.resources|, i requires 0 <= i < |p.resources| => ResourceValue(p.resources[i]))),
      "aws_price_snapshot_id" := OptionalText(p.awsPriceSnapshotId),
      "azure_price_snapshot_id" := OptionalText(p.azurePriceSnapshotId)]
  }

  function ToValue(p: EditableProject): Json {
    Object(Members(p))
  }

  /** A patch sets what it names and keeps the rest; applying it again changes nothing. */
  lemma PatchSetsWhatItNames(patch: ProjectPatch, base: EditableProject)
    ensures var c := Apply(patch, base);
            && Some(c.name) == (if patch.name == None then Some(base.name) else patch.name)
            && c.description == (if patch.description == None then base.description else patch.description)
            && Some(c.settings) == (if patch.settings == None then Some(base.settings) else patch.settings)
            && Some(c.resources) == (if patch.resources == None then Some(base.resources) else patch.resources)
            && c.awsPriceSnapshotId == base.awsPriceSnapshotId && c.azurePriceSnapshotId == base.azurePriceSnapshotId
            && Apply(patch, c) == c
  {
  }

  /** The serialized type replaces a member of that name among the remaining ones. */
  function NormalSettings(s: Settings): Settings {
    s.(fields := s.fields - {"project_type"})
  }

  function NormalResource(r: Resource): Resource {
    r.(fields := r.fields - {"source_type"})
  }

  function Normal(p: EditableProject): EditableProject {
    p.(settings := NormalSettings(p.settings),
      resources := seq(|p.resources|, i requires 0 <= i < |p.resources| => NormalResource(p.resources[i])))
  }

  lemma TypeNamesDiffer(t: ProjectType, u: ProjectType)
    requires ProjectTypeName(t) == ProjectTypeName(u)
    ensures t == u
  {
    var x, y := ProjectTypeName(t), ProjectTypeName(u);
    assert |x| == |y| && x[0] == y[0];
  }

  lemma SettingsShown(s: Settings, t: Settings)
    ensures SettingsValue(s) == SettingsValue(t) <==> NormalSettings(s) == NormalSettings(t)
  {
    hide ProjectTypeName;
    var a, b := SettingsValue(s).members, SettingsValue(t).members;
    assert a - {"project_type"} == s.fields - {"project_type"};
    assert b - {"project_type"} == t.fields - {"project_type"};
    if SettingsValue(s) == SettingsValue(t) {
      assert a["project_type"] == b["project_type"];
      TypeNamesDiffer(s.projectType, t.projectType);
    }
    if NormalSettings(s) == NormalSettings(t) {
      assert a == (s.fields - {"project_type"})["project_type" := a["project_type"]];
      assert b == (t.fields - {"project_type"})["project_type" := b["project_type"]];
    }
  }

  lemma ResourceShown(s: Resource, t: Resource)
    ensures ResourceValue(s) == ResourceValue(t) <==> NormalResource(s) == NormalResource(t)
  {
    hide ProjectTypeName;
    var a, b := ResourceValue(s).members, ResourceValue(t).members;
    assert a - {"source_type"} == s.fields - {"source_type"};
    assert b - {"source_type"} == t.fields - {"source_type"};
    if ResourceValue(s) == ResourceValue(t) {
      assert a["source_type"] == b["source_type"];
      TypeNamesDiffer(s.sourceType, t.sourceType);
    }
    if NormalResource(s) == NormalResource(t) {
      assert a == (s.fields - {"source_type"})["source_type" := a["source_type"]];
      assert b == (t.fields - {"source_type"})["source_type" := b["source_type"]];
    }
  }

  function ResourceValues(rs: seq<Resource>): seq<Json> {
    seq(|rs|, i requires 0 <= i < |rs| => ResourceValue(rs[i]))
  }

  function NormalResources(rs: seq<Resource>): seq<Resource> {
    seq(|rs|, i requires 0 <= i < |rs| => NormalResource(rs[i]))
  }

  lemma ResourcesShown(a: seq<Resource>, b: seq<Resource>)
    ensures ResourceValues(a) == ResourceValues(b) <==> NormalResources(a) == NormalResources(b)
  {
    hide ResourceValue, NormalResource;
    var v, w, m, n := ResourceValues(a), ResourceValues(b), NormalResources(a), NormalResources(b);
    forall i | 0 <= i < |a| && i < |b|
      ensures v[i] == w[i] <==> m[i] == n[i]
    {
      ResourceShown(a[i], b[i]);
    }
    assert |v| == |a| == |m| && |w| == |b| == |n|;
    if v == w {
      assert forall i | 0 <= i < |a| :: v[i] == w[i];
    }
    if m == n {
      assert forall i | 0 <= i < |a| :: m[i] == n[i];
    }
  }

  /** Serialization loses nothing: two projects have the same JSON form exactly when they are the same, but
      for a member that the serialized type replaces. */
  lemma SerializationLosesNothing(p: EditableProject, q: EditableProject)
    ensures ToValue(p) == ToValue(q) <==> Normal(p) == Normal(q)
  {
    hide SettingsValue, ResourceValue, NormalSettings, NormalResource;
    SettingsShown(p.settings, q.settings);
    ResourcesShown(p.resources, q.resources);
    MembersAre(p);
    MembersAre(q);
    if ToValue(p) == ToValue(q) {
      assert Members(p) == Members(q);
    }
    hide Members, ResourceValues, NormalResources, Normal;
    NormalIs(p);
    NormalIs(q);
    if Normal(p) == Normal(q) {
      SameMembers(p, q);
    }
  }

  lemma NormalIs(p: EditableProject)
    ensures Normal(p) == p.(settings := NormalSettings(p.settings), resources := NormalResources(p.resources))
  {
    hide NormalSettings, NormalResource;
  }

  lemma MembersAre(p: EditableProject)
    ensures var m := Members(p);
            && m.Keys == {"name", "description", "settings", "resources", "aws_price_snapshot_id",
                          "azure_price_snapshot_id"}
            && m["name"] == String(p.name) && m["description"] == OptionalText(p.description)
            && m["settings"] == SettingsValue(p.settings) && m["resources"] == Array(ResourceValues(p.resources))
            && m["aws_price_snapshot_id"] == OptionalText(p.awsPriceSnapshotId)
            && m["azure_price_snapshot_id"] == OptionalText(p.azurePriceSnapshotId)
  {
    hide SettingsValue, ResourceValue;
  }

  lemma SameMembers(p: EditableProject, q: EditableProject)
    requires p.name == q.name && p.description == q.description
    requires SettingsValue(p.settings) == SettingsValue(q.settings)
    requires ResourceValues(p.resources) == ResourceValues(q.resources)
    requires p.awsPriceSnapshotId == q.awsPriceSnapshotId && p.azurePriceSnapshotId == q.azurePriceSnapshotId
    ensures Members(p) == Members(q)
  {
    hide SettingsValue, ResourceValues, Members;
    MembersAre(p);
    MembersAre(q);
    assert forall k | k in Members(p) :: Members(p)[k] == Members(q)[k];
  }
}
