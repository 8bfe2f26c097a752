/**
 * The testimonials page of `src/pages/Testimonials.tsx`: a fixed list of
 * eight reviews, and `renderStars`, which draws five stars and fills star
 * `i` (counting from 0) when `i < rating`.
 */
module TestimonialsPage {

  datatype Testimonial = Testimonial(name: string, location: string, service: string, rating: int,
                                     text: string, date: string)

  const Testimonials: seq<Testimonial> := [
    Testimonial("Mrs. Adebayo Johnson", "Lagos State", "Residential Borehole", 5,
      "Dicteck Water Services exceeded our expectations! They drilled a 120-meter borehole for our family compound, and the water quality is excellent. The team was professional, punctual, and completed the work within the promised timeframe. Highly recommended!",
      "March 2024"),
    Testimonial("Chief Emeka Okafor", "Anambra State", "Swimming Pool Construction", 5,
      "Outstanding work on our swimming pool project! The design was exactly what we wanted, and the construction quality is top-notch. The filtration system works perfectly, and maintenance has been minimal. Thank you, Dicteck team!",
      "February 2024"),
    Testimonial("Dr. Fatima Ahmed", "Kano State", "Industrial Borehole", 5,
      "We needed a high-capacity borehole for our manufacturing facility, and Dicteck delivered beyond expectations. The project was completed on schedule, and the water output meets our industrial requirements perfectly. Excellent service!",
      "January 2024"),
    Testimonial("Mr. Peter Okwu", "Rivers State", "Water Treatment System", 5,
      "The water treatment system installed by Dicteck has transformed our water quality. The installation was seamless, and their team provided excellent training on system maintenance. Our family now enjoys clean, safe drinking water daily.",
      "December 2023"),
    Testimonial("Alhaji Musa Ibrahim", "Kaduna State", "Water Fountain Installation", 5,
      "Beautiful water fountain installation at our mosque compound. The design is elegant, and the LED lighting creates a stunning effect at night. The Dicteck team was respectful and professional throughout the project.",
      "November 2023"),
    Testimonial("Mrs. Grace Okonkwo", "Enugu State", "Borehole Rehabilitation", 5,
      "Our old borehole had been producing muddy water for months. Dicteck's team rehabilitated it perfectly - the water is now crystal clear and the flow rate has improved significantly. Great value for money!",
      "October 2023"),
    Testimonial("Engr. Tunde Afolabi", "Ogun State", "Swimming Pool + Borehole", 5,
      "Dicteck handled our complete water project - both borehole drilling and swimming pool construction. Their coordination between both services was excellent, and we saved costs on the combined project. Truly professional!",
      "September 2023"),
    Testimonial("Pastor David Adeyemi", "Osun State", "Church Borehole Project", 5,
      "Our church community now has access to clean water thanks to Dicteck. They completed the borehole project at a very reasonable cost and even provided free maintenance for the first year. God bless this team!",
      "August 2023")]

  /** The number of stars `renderStars` draws. */
  const StarCount := 5

  /** `renderStars(rating)`: one flag per star, true for a filled star. */
  function RenderStars(rating: int): (r: seq<bool>)
    ensures |r| == StarCount
    ensures forall i :: 0 <= i < |r| ==> (r[i] <==> i < rating)
  {
    seq(StarCount, i => i < rating)
  }

  /** The number of filled stars in `stars`. */
  function Filled(stars: seq<bool>): (n: nat)
    ensures n <= |stars|
    decreases |stars|
  {
    if stars == [] then 0 else Filled(stars[..|stars| - 1]) + (if stars[|stars| - 1] then 1 else 0)
  }

  /** `rating` clamped to the range 0 to `hi`. */
  function Clamp(rating: int, hi: nat): nat {
    if rating <= 0 then 0 else if rating >= hi then hi else rating
  }

  /** The first `n` stars of a rating fill `rating` of them, clamped to `n`. */
  lemma {:induction false} FilledPrefix(rating: int, n: nat)
    ensures Filled(seq(n, i => i < rating)) == Clamp(rating, n)
  {
    if n > 0 {
      FilledPrefix(rating, n - 1);
      var s := seq(n, i => i < rating);
      assert s[..n - 1] == seq(n - 1, i => i < rating);
    }
  }

  /** The filled count is the rating clamped to 0..5. */
  lemma FilledIsClampedRating(rating: int)
    ensures Filled(RenderStars(rating)) == Clamp(rating, StarCount)
  {
    FilledPrefix(rating, StarCount);
  }

  /** A rating of 0 or less fills no star, a rating of 5 or more fills all five. */
  lemma RatingExtremes(rating: int)
    ensures rating <= 0 ==> Filled(RenderStars(rating)) == 0
    ensures rating >= StarCount ==> Filled(RenderStars(rating)) == StarCount
  {
    FilledIsClampedRating(rating);
  }

  /** A higher rating never fills fewer stars. */
  lemma FilledMonotone(a: int, b: int)
    requires a <= b
    ensures Filled(RenderStars(a)) <= Filled(RenderStars(b))
  {
    FilledIsClampedRating(a);
    FilledIsClampedRating(b);
  }

  /** The sum of the ratings of `ts`. */
  function RatingSum(ts: seq<Testimonial>): int
    decreases |ts|
  {
    if ts == [] then 0 else RatingSum(ts[..|ts| - 1]) + ts[|ts| - 1].rating
  }

  lemma {:induction false} RatingSumAllFive(ts: seq<Testimonial>)
    requires forall i :: 0 <= i < |ts| ==> ts[i].rating == 5
    ensures RatingSum(ts) == 5 * |ts|
    decreases |ts|
  {
    if ts != [] {
      RatingSumAllFive(ts[..|ts| - 1]);
    }
  }

  /**
   * Every listed review is rated 5 and shows five filled stars, so the
   * average of the ratings is the 5.0 the page displays.
   */
  lemma AllRatedFive()
    ensures |Testimonials| == 8
    ensures forall i :: 0 <= i < |Testimonials| ==>
      Testimonials[i].rating == 5 && Filled(RenderStars(Testimonials[i].rating)) == 5
    ensures RatingSum(Testimonials) == 5 * |Testimonials|
  {
    FilledIsClampedRating(5);
    RatingSumAllFive(Testimonials);
  }
}
