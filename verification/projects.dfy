/** The Projects page: a category selector over a fixed project list, whose result is split into
    a "Featured Projects" and an "All Projects" section. */
module Projects {
  import Seqs

  /** One project card's data; image, icon, description and links only decorate the card. */
  datatype Project = Project(id: int, title: string, technologies: seq<string>, category: string, featured: bool)

  const AllProjects: seq<Project> := [
    Project(1, "E-Commerce Platform", ["React", "Node.js", "MongoDB", "Stripe", "Tailwind CSS"], "Web Development", true),
    Project(2, "AI Chat Application", ["React", "OpenAI API", "Socket.io", "Express", "PostgreSQL"], "AI/ML", true),
    Project(3, "Mobile Banking App", ["React Native", "Firebase", "Redux", "Expo"], "Mobile Development", false),
    Project(4, "Portfolio Website", ["React", "Three.js", "Framer Motion", "Tailwind CSS"], "Web Development", false),
    Project(5, "Task Management System", ["Vue.js", "Laravel", "MySQL", "WebSocket"], "Web Development", false),
    Project(6, "Weather Prediction ML", ["Python", "TensorFlow", "Pandas", "Scikit-learn"], "AI/ML", false)
  ]

  /** The category that shows every project. */
  const All: string := "All"

  /** The filter buttons, in display order. */
  const Categories: seq<string> := [All, "Web Development", "Mobile Development", "AI/ML"]

  const InitialCategory: string := All

  lemma CategoriesDistinct()
    ensures forall i, j :: 0 <= i < j < |Categories| ==> Categories[i] != Categories[j]
  {
  }

  /** The projects listed under `selected`. */
  function Filtered(projects: seq<Project>, selected: string): (r: seq<Project>)
    ensures selected == All ==> r == projects
    ensures selected != All ==> forall p :: p in r <==> p in projects && p.category == selected
    ensures Seqs.Subsequence(r, projects)
  {
    if selected == All then
      Seqs.SubsequenceReflexive(projects);
      projects
    else
      Seqs.Filter(projects, (p: Project) => p.category == selected)
  }

  /** With a category other than `All` selected, the list is exactly the projects of that
      category in their original order: any order-preserving selection of projects of that
      category that is at least as long is the same list. */
  lemma FilteredIsCategorySubsequence(projects: seq<Project>, selected: string, r: seq<Project>)
    requires selected != All
    requires Seqs.Subsequence(r, projects)
    requires forall p :: p in r ==> p.category == selected
    requires |Filtered(projects, selected)| <= |r|
    ensures r == Filtered(projects, selected)
  {
    Seqs.FilterIsUnique(projects, (p: Project) => p.category == selected, r);
  }

  /** The "Featured Projects" section. */
  function FeaturedSection(filtered: seq<Project>): (r: seq<Project>)
    ensures forall p :: p in r <==> p in filtered && p.featured
    ensures Seqs.Subsequence(r, filtered)
  {
    Seqs.Filter(filtered, (p: Project) => p.featured)
  }

  /** The "All Projects" section: despite its heading, only the non-featured ones. */
  function OtherSection(filtered: seq<Project>): (r: seq<Project>)
    ensures forall p :: p in r <==> p in filtered && !p.featured
    ensures Seqs.Subsequence(r, filtered)
  {
    Seqs.Filter(filtered, (p: Project) => !p.featured)
  }

  /** Every listed project is in exactly one of the two sections, and together the sections
      hold the listed projects with their multiplicities. */
  lemma SectionsPartition(filtered: seq<Project>)
    ensures forall p :: p in filtered ==> (p in FeaturedSection(filtered) <==> p !in OtherSection(filtered))
    ensures multiset(FeaturedSection(filtered)) + multiset(OtherSection(filtered)) == multiset(filtered)
    ensures |FeaturedSection(filtered)| + |OtherSection(filtered)| == |filtered|
  {
    Seqs.FilterPartition(filtered, (p: Project) => p.featured, (p: Project) => !p.featured);
  }

  // ---------------------------------------------------------------------------------------------
  // Category buttons

  /** Clicking the button at index `button` selects its category, whatever was selected. */
  function Click(selected: string, button: nat): (selected': string)
    requires button < |Categories|
    ensures selected' in Categories
    ensures Highlighted(selected')[button]
  {
    Categories[button]
  }

  /** The selection after a sequence of button clicks. */
  function ClickAll(selected: string, buttons: seq<nat>): (selected': string)
    requires forall k :: 0 <= k < |buttons| ==> buttons[k] < |Categories|
    ensures selected in Categories ==> selected' in Categories
    ensures buttons == [] ==> selected' == selected
    ensures buttons != [] ==> selected' == Categories[buttons[|buttons| - 1]]
    decreases |buttons|
  {
    if |buttons| == 0 then selected
    else ClickAll(Click(selected, buttons[0]), buttons[1..])
  }

  /** Which buttons are drawn highlighted for `selected`: exactly one when the selection is a
      category, none otherwise. */
  function Highlighted(selected: string): (lit: seq<bool>)
    ensures |lit| == |Categories|
    ensures forall i :: 0 <= i < |lit| ==> (lit[i] <==> Categories[i] == selected)
    ensures selected in Categories ==> ExactlyOne(lit)
    ensures selected !in Categories ==> forall i :: 0 <= i < |lit| ==> !lit[i]
  {
    CategoriesDistinct();
    var lit := seq(|Categories|, i requires 0 <= i < |Categories| => Categories[i] == selected);
    assert selected in Categories ==> exists i :: 0 <= i < |Categories| && Categories[i] == selected && lit[i];
    lit
  }

  /** Exactly one entry of `lit` is set. */
  predicate ExactlyOne(lit: seq<bool>) {
    exists i :: 0 <= i < |lit| && lit[i] && (forall j :: 0 <= j < |lit| && lit[j] ==> j == i)
  }

  /** From the initial selection, any clicks leave exactly one button highlighted. */
  lemma SelectionAlwaysCategory(buttons: seq<nat>)
    requires forall k :: 0 <= k < |buttons| ==> buttons[k] < |Categories|
    ensures ClickAll(InitialCategory, buttons) in Categories
    ensures ExactlyOne(Highlighted(ClickAll(InitialCategory, buttons)))
  {
  }

  // ---------------------------------------------------------------------------------------------
  // Scenarios on the configured data

  /** "All" lists all six projects; "Mobile Development" lists only project 3, which is not
      featured, so the Featured section is empty. */
  lemma MobileScenario()
    ensures Filtered(AllProjects, InitialCategory) == AllProjects
    ensures Filtered(AllProjects, "Mobile Development") == [AllProjects[2]]
    ensures AllProjects[2].id == 3
    ensures FeaturedSection(Filtered(AllProjects, "Mobile Development")) == []
    ensures OtherSection(Filtered(AllProjects, "Mobile Development")) == [AllProjects[2]]
  {
  }
}
