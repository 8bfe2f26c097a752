/**
 * The project gallery of `src/pages/Gallery.tsx`: a fixed list of eight
 * projects, category buttons that set `filter`, the list of projects shown
 * for the current filter, and a lightbox holding the project last clicked.
 */
module GalleryPage {
  import opened Common

  datatype Project = Project(id: int, title: string, category: string, location: string,
                             description: string, image: string)

  /** A filter button: the value it sets and its label. */
  datatype Category = Category(id: string, name: string)

  const Projects: seq<Project> := [
    Project(1, "Residential Borehole - Lagos", "borehole", "Lagos State",
      "150-meter deep borehole with submersible pump installation",
      "https://images.unsplash.com/photo-1500375592092-40eb2168fd21?w=600&h=400&fit=crop"),
    Project(2, "Swimming Pool Construction - Abuja", "pool", "Abuja FCT",
      "Olympic-size swimming pool with modern filtration system",
      "https://images.unsplash.com/photo-1504893524553-b855bce32c67?w=600&h=400&fit=crop"),
    Project(3, "Garden Water Fountain - Ibadan", "fountain", "Oyo State",
      "Three-tier decorative fountain with LED lighting",
      "https://images.unsplash.com/photo-1433086966358-54859d0ed716?w=600&h=400&fit=crop"),
    Project(4, "Industrial Borehole - Kano", "borehole", "Kano State",
      "High-capacity industrial borehole for manufacturing plant",
      "https://images.unsplash.com/photo-1472396961693-142e6e269027?w=600&h=400&fit=crop"),
    Project(5, "Resort Pool Complex - Port Harcourt", "pool", "Rivers State",
      "Multi-level pool complex with infinity edge design",
      "https://images.unsplash.com/photo-1500375592092-40eb2168fd21?w=600&h=400&fit=crop"),
    Project(6, "Commercial Water Treatment Plant", "treatment", "Lagos State",
      "Complete water treatment system for hotel complex",
      "https://images.unsplash.com/photo-1504893524553-b855bce32c67?w=600&h=400&fit=crop"),
    Project(7, "Residential Pool - Kaduna", "pool", "Kaduna State",
      "Custom kidney-shaped pool with spa features",
      "https://images.unsplash.com/photo-1433086966358-54859d0ed716?w=600&h=400&fit=crop"),
    Project(8, "Corporate Office Fountain", "fountain", "Lagos State",
      "Modern architectural fountain for office building entrance",
      "https://images.unsplash.com/photo-1472396961693-142e6e269027?w=600&h=400&fit=crop")]

  const Categories: seq<Category> := [
    Category("all", "All Projects"),
    Category("borehole", "Boreholes"),
    Category("pool", "Swimming Pools"),
    Category("fountain", "Water Fountains"),
    Category("treatment", "Water Treatment")]

  /** The filter value that shows everything. */
  const All := "all"

  /** `ps.filter(p => p.category === c)`. */
  function OfCategory(ps: seq<Project>, c: string): (r: seq<Project>)
    ensures |r| <= |ps|
    ensures forall p :: p in r <==> p in ps && p.category == c
    decreases |ps|
  {
    if ps == [] then []
    else (if ps[0].category == c then [ps[0]] else []) + OfCategory(ps[1..], c)
  }

  /** `filteredProjects`. */
  function Filtered(filter: string): seq<Project> {
    if filter == All then Projects else OfCategory(Projects, filter)
  }

  /** `xs` is `ys` with some elements left out, the rest in their order. */
  predicate SubsequenceOf(xs: seq<Project>, ys: seq<Project>)
    decreases |ys|
  {
    if xs == [] then true
    else if ys == [] then false
    else if xs[0] == ys[0] then SubsequenceOf(xs[1..], ys[1..])
    else SubsequenceOf(xs, ys[1..])
  }

  lemma {:induction false} OfCategorySubsequence(ps: seq<Project>, c: string)
    ensures SubsequenceOf(OfCategory(ps, c), ps)
    decreases |ps|
  {
    if ps != [] {
      OfCategorySubsequence(ps[1..], c);
      var rest := OfCategory(ps[1..], c);
      if ps[0].category == c {
        assert OfCategory(ps, c) == [ps[0]] + rest;
        assert ([ps[0]] + rest)[1..] == rest;
      } else {
        assert OfCategory(ps, c) == rest;
        if rest != [] {
          assert rest[0] in rest;
        }
      }
    }
  }

  /**
   * The filter "all" shows every project in its order; any other value shows
   * exactly the projects of that category, in their order, never more than
   * there are projects.
   */
  lemma FilteredMeaning(filter: string)
    ensures filter == All ==> Filtered(filter) == Projects
    ensures filter != All ==> forall p :: p in Filtered(filter) <==> p in Projects && p.category == filter
    ensures SubsequenceOf(Filtered(filter), Projects)
    ensures |Filtered(filter)| <= 8
  {
    OfCategorySubsequence(Projects, filter);
    SubsequenceOfSelf(Projects);
  }

  lemma {:induction false} SubsequenceOfSelf(ps: seq<Project>)
    ensures SubsequenceOf(ps, ps)
    decreases |ps|
  {
    if ps != [] {
      SubsequenceOfSelf(ps[1..]);
    }
  }

  /** The four project categories. */
  predicate KnownCategory(c: string) {
    c == "borehole" || c == "pool" || c == "fountain" || c == "treatment"
  }

  /** Every project belongs to one of the four categories that have a button. */
  lemma CategoriesCoverProjects()
    ensures forall p :: p in Projects ==> KnownCategory(p.category)
    ensures forall i :: 1 <= i < |Categories| ==> KnownCategory(Categories[i].id)
    ensures Categories[0].id == All
  {
    forall p | p in Projects ensures KnownCategory(p.category) {
      var i :| 0 <= i < |Projects| && Projects[i] == p;
      ProjectCategorized(i);
    }
  }

  lemma ProjectCategorized(i: nat)
    requires i < |Projects|
    ensures KnownCategory(Projects[i].category)
  {
  }

  /** A filter naming no project category shows nothing. */
  lemma UnknownFilterShowsNothing(filter: string)
    requires filter != All && !KnownCategory(filter)
    ensures Filtered(filter) == []
  {
    CategoriesCoverProjects();
  }

  /**
   * The four category buttons split the eight projects into groups of 2, 3,
   * 2 and 1.
   */
  lemma CategorySizes()
    ensures |Filtered("borehole")| == 2
    ensures |Filtered("pool")| == 3
    ensures |Filtered("fountain")| == 2
    ensures |Filtered("treatment")| == 1
  {
    BoreholeCount();
    PoolCount();
    FountainCount();
    TreatmentCount();
  }

  lemma BoreholeCount()
    ensures |Filtered("borehole")| == 2
  {
  }

  lemma PoolCount()
    ensures |Filtered("pool")| == 3
  {
  }

  lemma FountainCount()
    ensures |Filtered("fountain")| == 2
  {
  }

  lemma TreatmentCount()
    ensures |Filtered("treatment")| == 1
  {
  }

  /** Project ids are pairwise distinct, so they can serve as keys. */
  lemma IdsDistinct()
    ensures forall i, j :: 0 <= i < j < |Projects| ==> Projects[i].id != Projects[j].id
  {
  }

  /** The filter and lightbox state of the page. */
  class GalleryView {
    var filter: string
    var selectedImage: Option<Project>

    /** The selected project, if any, is one of the listed projects. */
    predicate Valid()
      reads this
    {
      selectedImage.Some? ==> selectedImage.value in Projects
    }

    /** The lightbox is on screen exactly when a project is selected. */
    predicate LightboxOpen()
      reads this
    {
      selectedImage.Some?
    }

    constructor ()
      ensures filter == All && selectedImage == None
      ensures Valid() && !LightboxOpen()
    {
      filter := All;
      selectedImage := None;
    }

    /** A category button: the filter becomes its id. */
    method ChooseCategory(c: Category)
      requires Valid()
      requires c in Categories
      modifies this
      ensures filter == c.id && selectedImage == old(selectedImage)
      ensures Valid()
    {
      filter := c.id;
    }

    /** Clicking a shown card opens the lightbox on it. */
    method Select(p: Project)
      requires Valid()
      requires p in Filtered(filter)
      modifies this
      ensures selectedImage == Some(p) && filter == old(filter)
      ensures Valid() && LightboxOpen()
    {
      FilteredMeaning(filter);
      selectedImage := Some(p);
    }

    /** The close button of the lightbox. */
    method Close()
      requires Valid()
      modifies this
      ensures selectedImage == None && filter == old(filter)
      ensures Valid() && !LightboxOpen()
    {
      selectedImage := None;
    }
  }
}
