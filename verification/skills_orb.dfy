/** The interactive skill-orb cluster: six labelled orbs, a hover state that remembers which
    orb the pointer is on, the scale each orb is drawn at, and the overlay that describes the
    hovered skill. */
module SkillsOrb {
  import opened Optional

  datatype Vec3 = Vec3(x: int, y: int, z: int)

  /** One configured orb: the skill name is its only key. */
  datatype Skill = Skill(name: string, position: Vec3, color: string)

  /** The orbs, in the order they are rendered. */
  const Skills: seq<Skill> := [
    Skill("React", Vec3(2, 1, 0), "#61DAFB"),
    Skill("Node.js", Vec3(-2, 1, 0), "#339933"),
    Skill("Python", Vec3(0, 2, 1), "#3776AB"),
    Skill("AI/ML", Vec3(1, -1, 2), "#FF6B6B"),
    Skill("Three.js", Vec3(-1, -1, -1), "#000000"),
    Skill("MongoDB", Vec3(0, -2, 0), "#47A248")
  ]

  const Fallback: string := "Advanced technology skill"

  const Descriptions: map<string, string> := map[
    "React" := "Modern frontend library for building user interfaces",
    "Node.js" := "JavaScript runtime for building scalable server applications",
    "Python" := "Versatile programming language for AI, web development, and data science",
    "AI/ML" := "Artificial Intelligence and Machine Learning technologies",
    "Three.js" := "3D graphics library for creating immersive web experiences",
    "MongoDB" := "NoSQL database for modern applications"
  ]

  /** `descriptions[skill] || fallback`: a missing entry and an empty entry both give the fallback. */
  function Describe(skill: string): (text: string)
    ensures text != ""
    ensures skill in Descriptions && Descriptions[skill] != "" ==> text == Descriptions[skill]
    ensures skill !in Descriptions ==> text == Fallback
    ensures text == Fallback || text in Descriptions.Values
  {
    if skill in Descriptions && Descriptions[skill] != "" then Descriptions[skill] else Fallback
  }

  /** The six table entries, one by one. */
  lemma DescribeTable()
    ensures Describe("React") == "Modern frontend library for building user interfaces"
    ensures Describe("Node.js") == "JavaScript runtime for building scalable server applications"
    ensures Describe("Python") == "Versatile programming language for AI, web development, and data science"
    ensures Describe("AI/ML") == "Artificial Intelligence and Machine Learning technologies"
    ensures Describe("Three.js") == "3D graphics library for creating immersive web experiences"
    ensures Describe("MongoDB") == "NoSQL database for modern applications"
  {
  }

  /** Every configured orb has its own, non-fallback entry in the table. */
  lemma ConfiguredSkillsDescribed()
    ensures forall i :: 0 <= i < |Skills| ==> Skills[i].name in Descriptions
    ensures forall i :: 0 <= i < |Skills| ==> Describe(Skills[i].name) == Descriptions[Skills[i].name]
    ensures forall i :: 0 <= i < |Skills| ==> Describe(Skills[i].name) != Fallback
  {
  }

  /** No two orbs share a name. */
  lemma SkillNamesDistinct()
    ensures forall i, j :: 0 <= i < j < |Skills| ==> Skills[i].name != Skills[j].name
  {
  }

  /** The name of some configured orb. */
  predicate IsSkillName(name: string) {
    exists i :: 0 <= i < |Skills| && Skills[i].name == name
  }

  // ---------------------------------------------------------------------------------------------
  // Hover state machine

  /** `hoveredSkill`: `None` is JavaScript's `null`. */
  type Hover = Option<string>

  const InitialHover: Hover := None

  /** A pointer event the renderer's hit test delivers for the orb at index `orb`. */
  datatype PointerEvent = Enter(orb: nat) | Leave(orb: nat)

  /** The states the machine can reach: nothing hovered, or the name of a configured orb. */
  predicate Reachable(h: Hover) {
    h.None? || IsSkillName(h.value)
  }

  /** Orb `s` counts as hovered when the state equals its name. */
  predicate IsHovered(s: Skill, h: Hover) {
    h == Some(s.name)
  }

  /** Pointer-enter on an orb reports its name; pointer-leave reports `null`, whichever orb was
      hovered before. */
  function Step(h: Hover, e: PointerEvent): (h': Hover)
    requires e.orb < |Skills|
    ensures IsHovered(Skills[e.orb], h') <==> e.Enter?
    ensures e.Enter? ==> forall j :: 0 <= j < |Skills| && j != e.orb ==> !IsHovered(Skills[j], h')
    ensures e.Leave? ==> forall j :: 0 <= j < |Skills| ==> !IsHovered(Skills[j], h')
    ensures Reachable(h')
  {
    SkillNamesDistinct();
    match e
    case Enter(i) => Some(Skills[i].name)
    case Leave(_) => None
  }

  /** The hover state after a stream of pointer events. */
  function Replay(h: Hover, events: seq<PointerEvent>): (h': Hover)
    requires forall k :: 0 <= k < |events| ==> events[k].orb < |Skills|
    ensures Reachable(h) ==> Reachable(h')
    ensures events == [] ==> h' == h
    ensures events != [] && events[|events| - 1].Enter? ==> h' == Some(Skills[events[|events| - 1].orb].name)
    ensures events != [] && events[|events| - 1].Leave? ==> h' == None
    decreases |events|
  {
    if |events| == 0 then h
    else Replay(Step(h, events[0]), events[1..])
  }

  /** Whatever the history, at most one orb is hovered, and exactly one when the state names a
      configured orb. */
  lemma HoverExclusive(h: Hover)
    ensures forall i, j :: 0 <= i < |Skills| && 0 <= j < |Skills| && IsHovered(Skills[i], h) && IsHovered(Skills[j], h) ==> i == j
    ensures (exists i :: 0 <= i < |Skills| && IsHovered(Skills[i], h)) <==> h.Some? && IsSkillName(h.value)
  {
    SkillNamesDistinct();
  }

  /** A leave clears the state even when it comes from an orb other than the hovered one. */
  lemma StaleLeaveClears()
    ensures Replay(InitialHover, [Enter(0), Leave(1)]) == None
  {
  }

  // ---------------------------------------------------------------------------------------------
  // Per-frame scale and the overlay

  /** `isHovered ? 1.2 : 1`. */
  function OrbScale(hovered: bool): (scale: real)
    ensures scale > 1.0 <==> hovered
  {
    if hovered then 1.2 else 1.0
  }

  /** The scale of every orb, in render order. */
  function Scales(h: Hover): (scales: seq<real>)
    ensures |scales| == |Skills|
    ensures forall i :: 0 <= i < |Skills| ==> scales[i] == 1.2 || scales[i] == 1.0
    ensures forall i :: 0 <= i < |Skills| ==> (scales[i] == 1.2 <==> IsHovered(Skills[i], h))
    ensures forall i, j :: 0 <= i < |Skills| && 0 <= j < |Skills| && scales[i] == 1.2 && scales[j] == 1.2 ==> i == j
  {
    HoverExclusive(h);
    seq(|Skills|, i requires 0 <= i < |Skills| => OrbScale(IsHovered(Skills[i], h)))
  }

  /** The info panel drawn over the canvas. */
  datatype Overlay = Hidden | Panel(heading: string, text: string)

  /** `hoveredSkill && (...)`: the panel appears only for a truthy, i.e. non-null and non-empty,
      hover state, and shows the name and its description. In every reachable state that means
      it is shown exactly when an orb is hovered, with that orb's own table entry. */
  function OverlayFor(h: Hover): (o: Overlay)
    ensures o.Panel? <==> h.Some? && h.value != ""
    ensures o.Panel? ==> o.heading == h.value && o.text == Describe(h.value)
    ensures Reachable(h) ==> (o.Panel? <==> h.Some?)
    ensures Reachable(h) && o.Panel? ==> o.text == Descriptions[h.value] && o.text != Fallback
  {
    ConfiguredSkillsDescribed();
    if h.Some? && h.value != "" then Panel(h.value, Describe(h.value)) else Hidden
  }

  /** Hovering the AI/ML orb publishes its description; an unknown name gets the fallback. */
  lemma HoverScenario()
    ensures OverlayFor(Replay(InitialHover, [Enter(3)])) == Panel("AI/ML", "Artificial Intelligence and Machine Learning technologies")
    ensures OverlayFor(Replay(InitialHover, [Enter(3), Leave(3)])) == Hidden
    ensures OverlayFor(Some("Rust")) == Panel("Rust", Fallback)
  {
  }
}
