/** The template browser's list: a category chip, a difficulty chip and a fuzzy search
    box narrow the loaded templates. The fuzzy matcher is a parameter: given the narrowed
    list and the term it answers positions into that list, best match first. */
module GoalTemplateBrowser {
  import opened Seqs
  import opened GoalTemplateService

  /** The chips' "no filter" value. */
  const All: string := "all"

  predicate InCategory(category: string, t: Template) {
    category == All || t.category == category
  }

  predicate AtDifficulty(difficulty: string, t: Template) {
    difficulty == All || t.difficulty == difficulty
  }

  function OfCategory(category: string): Template -> bool {
    (t: Template) => t.category == category
  }

  function OfDifficulty(difficulty: string): Template -> bool {
    (t: Template) => t.difficulty == difficulty
  }

  /** The category and difficulty chips applied in turn. */
  function Narrow(templates: seq<Template>, category: string, difficulty: string): (r: seq<Template>)
    ensures Subseq(r, templates)
    ensures forall i :: 0 <= i < |r| ==> r[i] in templates && InCategory(category, r[i]) && AtDifficulty(difficulty, r[i])
    ensures forall i :: 0 <= i < |templates| && InCategory(category, templates[i]) && AtDifficulty(difficulty, templates[i]) ==>
      templates[i] in r
    ensures category == All && difficulty == All ==> r == templates
  {
    var byCategory := if category != All then Filter(templates, OfCategory(category)) else templates;
    var byDifficulty := if difficulty != All then Filter(byCategory, OfDifficulty(difficulty)) else byCategory;
    NarrowFacts(templates, category, difficulty);
    byDifficulty
  }

  lemma NarrowFacts(templates: seq<Template>, category: string, difficulty: string)
    ensures var byCategory := if category != All then Filter(templates, OfCategory(category)) else templates;
      var byDifficulty := if difficulty != All then Filter(byCategory, OfDifficulty(difficulty)) else byCategory;
      Subseq(byDifficulty, templates)
  {
    var byCategory := if category != All then Filter(templates, OfCategory(category)) else templates;
    if category != All {
      FilterSubseq(templates, OfCategory(category));
    } else {
      SubseqRefl(templates);
    }
    if difficulty != All {
      FilterSubseq(byCategory, OfDifficulty(difficulty));
      SubseqTrans(Filter(byCategory, OfDifficulty(difficulty)), byCategory, templates);
    }
  }

  /** `filterTemplates`: the narrowed list, then, for a non-empty search term, the
      matcher's hits in its order (a position outside the list names nothing). */
  function FilterTemplates(templates: seq<Template>, category: string, difficulty: string, term: string,
                           search: (seq<Template>, string) -> seq<int>): (r: seq<Template>)
    ensures forall i :: 0 <= i < |r| ==> r[i] in templates && InCategory(category, r[i]) && AtDifficulty(difficulty, r[i])
    ensures term == "" ==> r == Narrow(templates, category, difficulty)
    ensures term == "" && category == All && difficulty == All ==> r == templates
  {
    var narrowed := Narrow(templates, category, difficulty);
    if term == "" then narrowed
    else
      var hits := Filter(search(narrowed, term), (k: int) => 0 <= k < |narrowed|);
      seq(|hits|, i requires 0 <= i < |hits| => narrowed[hits[i]])
  }

  /** The chips commute: narrowing by category then difficulty keeps the same templates
      as keeping those that pass both tests at once. */
  lemma NarrowIsOneFilter(templates: seq<Template>, category: string, difficulty: string)
    requires category != All && difficulty != All
    ensures Narrow(templates, category, difficulty)
         == Filter(templates, (t: Template) => t.category == category && t.difficulty == difficulty)
  {
    var p := OfCategory(category);
    var q := OfDifficulty(difficulty);
    FilterFilter(templates, p, q);
    FilterExt(templates, Both(p, q), (t: Template) => t.category == category && t.difficulty == difficulty);
  }

  lemma {:induction false} SubseqRefl<T>(s: seq<T>)
    ensures Subseq(s, s)
  {
    if s != [] {
      SubseqRefl(s[1..]);
    }
  }

  lemma {:induction false} SubseqTrans<T>(a: seq<T>, b: seq<T>, c: seq<T>)
    requires Subseq(a, b) && Subseq(b, c)
    ensures Subseq(a, c)
    decreases |c|
  {
    if a != [] {
      assert c != [];
      if b[0] == c[0] && Subseq(b[1..], c[1..]) {
        if a[0] == b[0] && Subseq(a[1..], b[1..]) {
          SubseqTrans(a[1..], b[1..], c[1..]);
        } else {
          SubseqTrans(a, b[1..], c[1..]);
        }
      } else {
        SubseqTrans(a, b, c[1..]);
      }
    }
  }

  /** `getDifficultyColor`: the badge colour of a difficulty. */
  function DifficultyColor(difficulty: string): (colour: string)
    ensures colour == "primary" <==> difficulty !in ["beginner", "intermediate", "advanced"]
    ensures difficulty == "beginner" ==> colour == "success"
    ensures difficulty == "intermediate" ==> colour == "warning"
    ensures difficulty == "advanced" ==> colour == "danger"
  {
    match difficulty
    case "beginner" => "success"
    case "intermediate" => "warning"
    case "advanced" => "danger"
    case _ => "primary"
  }

  /** The three levels get three different colours. */
  lemma DifficultyColoursDistinct(a: string, b: string)
    requires a in ["beginner", "intermediate", "advanced"] && b in ["beginner", "intermediate", "advanced"]
    requires a != b
    ensures DifficultyColor(a) != DifficultyColor(b)
  {}

  /** `getCategoryIcon`: the icon of a template category. */
  function CategoryIcon(category: string): (icon: string)
    ensures icon == "Target" <==> category !in ["health", "professional", "personal", "education"]
  {
    match category
    case "health" => "Heart"
    case "professional" => "Briefcase"
    case "personal" => "User"
    case "education" => "GraduationCap"
    case _ => "Target"
  }

  /** A category chip: its id and the icon drawn on it. */
  datatype Chip = Chip(id: string, caption: string, icon: string)

  const CategoryChips: seq<Chip> := [
    Chip("all", "All Categories", "Grid3X3"),
    Chip("health", "Health & Fitness", "Heart"),
    Chip("professional", "Professional", "Briefcase"),
    Chip("personal", "Personal", "User"),
    Chip("education", "Education", "GraduationCap")]

  /** A template's icon is the icon on the chip that selects it. */
  lemma ChipIconsAgree(i: int)
    requires 1 <= i < |CategoryChips|
    ensures CategoryIcon(CategoryChips[i].id) == CategoryChips[i].icon
  {}
}
