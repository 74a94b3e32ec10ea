/**
  The tools the two bundled servers publish, the annotations they publish them
  with, and the router's policy: two tables kept in different places that must
  agree.
 */
module ToolAnnotations {
  import opened Wrappers
  import opened Text
  import opened ApprovalProtocol

  datatype Annotations = Annotations(readOnly: bool, destructive: bool, idempotent: bool, openWorld: bool)

  const INTERNAL_TOOLS := {
    "memory_search", "memory_get", "knowledge_sparql", "knowledge_get", "tool_package_propose",
    "tool_package_install", "tool_catalog", "tool_get", "tool_run", "scholarly_search", "evidence_capture",
    "artifact_publish_plan", "artifact_publish_evidence", "artifact_publish_report", "artifact_publish_review" }

  const ENGINEERING_TOOLS := {
    "engineering_capabilities", "engineering_inputs", "engineering_get", "openvsp_wing_aero", "openvsp_modify_wing",
    "gmsh_wing_mesh", "xfoil_polar", "su2_cfd" }

  /** `toolAnnotations`; None where the server panics on a tool that is not classified. */
  function AnnotationsOf(name: string): Option<Annotations> {
    if name in {"memory_search", "scholarly_search"} then Some(Annotations(true, false, false, true))
    else if name in {"memory_get", "knowledge_sparql", "knowledge_get", "tool_catalog", "tool_get"} then
      Some(Annotations(true, false, true, false))
    else if name == "tool_run" then Some(Annotations(false, false, false, true))
    else if name == "tool_package_install" then Some(Annotations(false, false, true, true))
    else if name in {"evidence_capture", "tool_package_propose", "artifact_publish_plan",
                     "artifact_publish_evidence", "artifact_publish_report", "artifact_publish_review"} then
      Some(Annotations(false, false, false, false))
    else if name in {"engineering_capabilities", "engineering_inputs", "engineering_get"} then
      Some(Annotations(true, false, true, false))
    else if name in {"openvsp_wing_aero", "openvsp_modify_wing", "gmsh_wing_mesh", "xfoil_polar", "su2_cfd"} then
      Some(Annotations(false, false, true, false))
    else None
  }

  /** Every published tool is classified, and none is annotated as destructive. */
  lemma EveryToolIsClassified(name: string)
    requires name in INTERNAL_TOOLS + ENGINEERING_TOOLS
    ensures AnnotationsOf(name).Some? && !AnnotationsOf(name).value.destructive
  {
  }

  /** A name of small letters and underscores. */
  predicate PlainName(name: string) {
    name != "" && forall i | 0 <= i < |name| :: name[i] == '_' || 'a' <= name[i] <= 'z' || IsDigit(name[i])
  }

  lemma PlainNameStays(name: string)
    requires PlainName(name)
    ensures Lower(name) == name && TrimSpace(name) == name
    ensures forall s: string :: EqualFold(name, s) ==> name == s
  {
    TrimNothing(name);
  }

  lemma KnowledgeNamesArePlain()
    ensures PlainName("memory_search") && PlainName("memory_get")
    ensures PlainName("knowledge_sparql") && PlainName("knowledge_get")
    ensures PlainName("scholarly_search")
  {
  }

  lemma PackageNamesArePlain()
    ensures PlainName("tool_package_propose") && PlainName("tool_package_install")
    ensures PlainName("tool_catalog") && PlainName("tool_get")
    ensures PlainName("tool_run")
  {
  }

  lemma ArtifactNamesArePlain()
    ensures PlainName("artifact_publish_plan")
    ensures PlainName("artifact_publish_evidence") && PlainName("artifact_publish_report")
    ensures PlainName("artifact_publish_review")
  {
  }

  lemma ReadingNamesArePlain()
    ensures PlainName("engineering_capabilities") && PlainName("engineering_inputs")
    ensures PlainName("engineering_get") && PlainName("evidence_capture")
  {
  }

  lemma SolverNamesArePlain()
    ensures PlainName("openvsp_wing_aero") && PlainName("openvsp_modify_wing")
    ensures PlainName("gmsh_wing_mesh") && PlainName("xfoil_polar")
    ensures PlainName("su2_cfd")
  {
  }

  lemma PublishedNamesArePlain(name: string)
    requires name in INTERNAL_TOOLS + ENGINEERING_TOOLS
    ensures PlainName(name)
  {
    hide PlainName;
    KnowledgeNamesArePlain();
    PackageNamesArePlain();
    ArtifactNamesArePlain();
    ReadingNamesArePlain();
    SolverNamesArePlain();
  }

  lemma ServerNamesArePlain()
    ensures PlainName("aetherops_internal") && PlainName("aetherops_engineering")
  {
  }

  /**
    On the internal server a published tool goes through without the user
    exactly when it is annotated as reading only or as closed to the world; the
    only other one an installed package can let through is the package's run.
   */
  lemma InternalToolsFollowTheirAnnotations(name: string)
    requires name in INTERNAL_TOOLS
    ensures var surface := McpTool("aetherops_internal", name);
            var notes := AnnotationsOf(name).value;
            && (NeedsUser(surface) <==> !notes.readOnly && notes.openWorld)
            && (IsPortableRun(surface) <==> name == "tool_run") && !IsSolver(surface)
  {
    hide Lower, TrimSpace, PlainName;
    PublishedNamesArePlain(name);
    ServerNamesArePlain();
    PlainNameStays(name);
    PlainNameStays("aetherops_internal");
  }

  /** On the engineering server the tools that read go through, and all others are solvers. */
  lemma EngineeringToolsFollowTheirAnnotations(name: string)
    requires name in ENGINEERING_TOOLS
    ensures var surface := McpTool("aetherops_engineering", name);
            var notes := AnnotationsOf(name).value;
            && (NeedsUser(surface) <==> !notes.readOnly) && (IsSolver(surface) <==> !notes.readOnly)
  {
    hide Lower, TrimSpace, PlainName, IsSolver, NeedsUser;
    PublishedNamesArePlain(name);
    ServerNamesArePlain();
    PlainNameStays(name);
    PlainNameStays("aetherops_engineering");
    EngineeringSurface(name);
  }

  lemma EngineeringSurface(name: string)
    requires forall n <- {name, "aetherops_engineering"} :: Lower(n) == n && TrimSpace(n) == n
    ensures var surface := McpTool("aetherops_engineering", name);
            (NeedsUser(surface) <==> name !in ENGINEERING_READS) && (IsSolver(surface) <==> name in SOLVERS)
  {
    hide Lower, TrimSpace;
  }

  /**
    So over every run a published internal tool that is neither reading only nor
    closed to the world is accepted only by the user's decision on a row of it,
    or as the run of an installed package after its stage was marked.
   */
  lemma OpenToolsNeedADecision(start: State, schedule: seq<Action>, i: nat, name: string)
    requires Initial(start) && name in INTERNAL_TOOLS
    requires var s := After(start, schedule);
             && i < |s.trace| && s.trace[i].Answer? && s.trace[i].accept
             && s.trace[i].request < |s.requests|
             && s.requests[s.trace[i].request].surface == McpTool("aetherops_internal", name)
    requires var notes := AnnotationsOf(name); notes.Some? && notes.value.openWorld && !notes.value.readOnly
    ensures var s := After(start, schedule);
            exists k :: 0 <= k < i &&
              if name == "tool_run" && s.trace[k].Marked?
              then s.trace[k].attempt == s.requests[s.trace[i].request].attempt
              else s.trace[k].Chosen? && s.trace[k].request == s.trace[i].request && s.trace[k].approve
  {
    hide After, Harmless, FromBrowser, IsSolver, IsPortableRun, AnnotationsOf;
    AcceptsAreDurable(start, schedule, i);
    InternalToolsFollowTheirAnnotations(name);
    var s := After(start, schedule);
    var q := s.trace[i].request;
    var k :| 0 <= k < i && Authorizes(s.trace[k], q, s.requests[q]);
  }
}
