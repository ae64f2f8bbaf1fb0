# Skill orbs and project filter of the Ejaz portfolio site, modelled in Dafny

The portfolio site is mostly static text and animation. This project models the two pieces of
it that carry sequential logic:

- **The interactive skill orbs** (`Ejaz/src/components/3d/InteractiveSkillsOrb.jsx`), in module
  `SkillsOrb` (`skills_orb.dfy`). There are six configured orbs, each with a name, position and
  colour. The hover state `hoveredSkill` is modelled as an `Option<string>`. Pointer-enter and
  pointer-leave events drive it (`Step`, and `Replay` for a stream of events). An orb counts as
  hovered when the state equals its name, and a hovered orb is drawn at scale 1.2 instead of 1.
  When the state is truthy, an info panel shows the hovered name and its entry in the
  description table. A name missing from the table, or an empty entry, gets the fallback text.
- **The Projects page** (`Ejaz/src/pages/Projects.jsx`), in module `Projects` (`projects.dfy`).
  The page holds six projects and four category buttons, and the selection starts at `All`.
  `All` lists every project. Any other category lists the projects of that category in their
  original order. That list is split into the "Featured Projects" section and the "All
  Projects" section, which holds only the non-featured projects. Clicking a button selects its
  category and highlights that button.

The JavaScript `Array.prototype.filter` that both sections and the category filter use is
modelled once, in module `Seqs` (`seqs.dfy`). It comes with a recursive notion of subsequence
and four lemmas. Every list is a subsequence of itself, which the `All` branch needs. The
filter is the longest, and the only, order-preserving selection of the matching elements. A
filter and its complement split a sequence with multiplicities.
`optional.dfy` holds the `Option` datatype.

A pointer-leave clears the hover state even when it comes from an orb other than the hovered
one, because every orb's leave handler calls `onHover(null)`
(`Ejaz/src/components/3d/InteractiveSkillsOrb.jsx:24`). `SkillsOrb.StaleLeaveClears` shows this
on the configured orbs.

JavaScript truthiness is kept where the code relies on it. The panel appears only for a
non-null, non-empty state (`hoveredSkill && …`). The lookup `descriptions[skill] || fallback`
falls back on an empty entry as well as a missing one. Neither corner is reachable with the
configured data, and `OverlayFor` and `ConfiguredSkillsDescribed` prove that.

## Model

| member | source | states |
|---|---|---|
| SkillsOrb.Describe | Ejaz/src/components/3d/InteractiveSkillsOrb.jsx:108-118 | the description is never empty; a known name with a non-empty entry gets its entry, an unknown name gets the fallback, and nothing else is ever returned |
| SkillsOrb.DescribeTable | Ejaz/src/components/3d/InteractiveSkillsOrb.jsx:109-116 | each of the six names, e.g. AI/ML, is described by its own table text |
| SkillsOrb.ConfiguredSkillsDescribed | Ejaz/src/components/3d/InteractiveSkillsOrb.jsx:52-57 | every configured orb name is in the table, so its description is its entry and never the fallback |
| SkillsOrb.SkillNamesDistinct | Ejaz/src/components/3d/InteractiveSkillsOrb.jsx:52-57 | no two configured orbs share a name |
| SkillsOrb.Step | Ejaz/src/components/3d/InteractiveSkillsOrb.jsx:23-24 | after an enter the entered orb is hovered and no other orb is; after a leave no orb at all is hovered, whatever was hovered before; the new state is always null or a configured name |
| SkillsOrb.Replay | Ejaz/src/components/3d/InteractiveSkillsOrb.jsx:23-24 | over any event stream the state stays null or a configured name, and is decided by the last event alone: its orb's name after an enter, null after a leave |
| SkillsOrb.HoverExclusive | Ejaz/src/components/3d/InteractiveSkillsOrb.jsx:76 | with `IsHovered` (the state equals the orb's name), for any state at most one orb is hovered, and some orb is hovered exactly when the state names a configured orb |
| SkillsOrb.StaleLeaveClears | Ejaz/src/components/3d/InteractiveSkillsOrb.jsx:24 | entering orb 0 and then leaving orb 1 leaves nothing hovered |
| SkillsOrb.OrbScale | Ejaz/src/components/3d/InteractiveSkillsOrb.jsx:14 | an orb is enlarged exactly when it is hovered |
| SkillsOrb.Scales | Ejaz/src/components/3d/InteractiveSkillsOrb.jsx:70-79 | every orb is drawn at 1.2 or 1, at 1.2 exactly when it is hovered, and at most one orb at 1.2 |
| SkillsOrb.OverlayFor | Ejaz/src/components/3d/InteractiveSkillsOrb.jsx:85-94 | the panel is shown exactly for a non-null, non-empty state, with that name and its description; in every reachable state it is shown exactly when something is hovered, with that orb's own table entry and never the fallback |
| SkillsOrb.HoverScenario | Ejaz/src/components/3d/InteractiveSkillsOrb.jsx:113-117 | hovering AI/ML shows its description, leaving it hides the panel, and an unknown name shows the fallback |
| Seqs.Filter | Ejaz/src/pages/Projects.jsx:87 | the result keeps exactly the elements that pass the test, is no longer than the input, and is a subsequence of it |
| Seqs.SubsequenceReflexive | Ejaz/src/pages/Projects.jsx:85-86 | a list is a subsequence of itself |
| Seqs.FilterIsLongest | Ejaz/src/pages/Projects.jsx:87 | no order-preserving selection of passing elements is longer than the filter result |
| Seqs.FilterIsUnique | Ejaz/src/pages/Projects.jsx:87 | the filter result is the only order-preserving selection of passing elements that is at least as long as it |
| Seqs.FilterPartition | Ejaz/src/pages/Projects.jsx:153-163 | filtering by a test and by its complement splits the input: the multisets add up to the input's and the lengths to its length |
| Projects.CategoriesDistinct | Ejaz/src/pages/Projects.jsx:82 | no two category buttons carry the same category |
| Projects.Filtered | Ejaz/src/pages/Projects.jsx:85-87 | All lists every project in the same order; any other category lists exactly the projects of that category; the list is always a subsequence of the projects |
| Projects.FilteredIsCategorySubsequence | Ejaz/src/pages/Projects.jsx:87 | for a category other than All, the list is the one order-preserving selection of that category's projects that leaves none out |
| Projects.FeaturedSection | Ejaz/src/pages/Projects.jsx:153 | the Featured section holds exactly the listed projects that are featured, in list order |
| Projects.OtherSection | Ejaz/src/pages/Projects.jsx:163 | the All Projects section holds exactly the listed projects that are not featured, in list order |
| Projects.SectionsPartition | Ejaz/src/pages/Projects.jsx:153-163 | every listed project is in exactly one section; the sections together hold the list with multiplicities and their sizes add up to its size |
| Projects.Click | Ejaz/src/pages/Projects.jsx:136 | a click selects a category, and the clicked button is highlighted afterwards |
| Projects.ClickAll | Ejaz/src/pages/Projects.jsx:133-136 | clicks keep the selection a category, and the last click alone decides it |
| Projects.Highlighted | Ejaz/src/pages/Projects.jsx:133-141 | since the categories are distinct, exactly one button is highlighted when the selection is a category, namely the one carrying it, and none otherwise |
| Projects.SelectionAlwaysCategory | Ejaz/src/pages/Projects.jsx:82-83 | starting from All, after any clicks the selection is a category and exactly one button is highlighted |
| Projects.MobileScenario | Ejaz/src/pages/Projects.jsx:32-43 | All lists all six projects; Mobile Development lists only project 3, so the Featured section is empty and the other section holds project 3 |

## Left out

- Orb rotation `sin(t) * 0.3` and `sin(t) * 0.5`: floating-point trigonometry driven by the renderer's clock.
- The ambient particle field (`FloatingElements.jsx`). It draws random points through a foreign library and accumulates floating-point rotation per frame.
- Canvas, lights, camera, orbit controls, materials, text labels and hit testing. These belong to the rendering engine. Hit testing is represented only by the `PointerEvent` values it delivers.
- Frame-callback subscription and teardown on unmount: React and renderer lifecycle, not visible code.
- The overlay's fade-in and the page's entrance animations: easing parameters with no logic.
- JavaScript prototype keys in `descriptions[skill]` (e.g. `constructor`). The table is a plain finite map with a default.
- Project images, icons, descriptions, GitHub and live links, and the card layout. They decorate a card and play no part in filtering or sectioning.
- Services, About, Home and Footer pages: static content.
