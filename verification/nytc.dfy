/** `src/nytc.rs`: the scraped NYT Cooking record, its star rating, and the conversion to and
    from the flat database row, where every list of pairs is stored as two parallel lists. */
module Nytc {
  import opened Results
  import opened Seqs

  // ---------------------------------------------------------------------------
  // rating

  /** The star rating; its discriminants are 0 to 5 in declaration order. */
  datatype Rating = Zero | One | Two | Three | Four | Five

  /** `rating as i32`: the discriminant, which is the rebuilt rating's value. */
  function Discriminant(r: Rating): (d: int)
    ensures 0 <= d <= 5
    ensures NewRating(d) == r
  {
    match r
    case Zero => 0
    case One => 1
    case Two => 2
    case Three => 3
    case Four => 4
    case Five => 5
  }

  /** `Rating::new`: 1 to 5 stars are kept and any other value means no stars. */
  function NewRating(rating: int): (r: Rating)
    ensures r.Zero? <==> !(1 <= rating <= 5)
    ensures rating == 1 <==> r.One?
    ensures rating == 2 <==> r.Two?
    ensures rating == 3 <==> r.Three?
    ensures rating == 4 <==> r.Four?
    ensures rating == 5 <==> r.Five?
  {
    match rating
    case 1 => One
    case 2 => Two
    case 3 => Three
    case 4 => Four
    case 5 => Five
    case _ => Zero
  }

  // ---------------------------------------------------------------------------
  // records

  /** The ingredient list: optional named sub-components with their starting index, and
      `(quantity, ingredient)` pairs, the quantity possibly empty. */
  datatype Ingredients = Ingredients(subComponents: Option<seq<(string, int)>>, ingredients: seq<(string, string)>)

  /** The scraped recipe. */
  datatype Recipe = Recipe(
    title: string,
    author: Option<string>,
    yield_: string,
    time: Option<string>,
    description: Option<string>,
    featured: Option<string>,
    tags: seq<string>,
    ratings: int,
    rating: Rating,
    ingredients: Ingredients,
    steps: seq<string>,
    comments: Option<seq<(string, int)>>,
    urlId: string)

  /** The database row, written as the insertable shape and read back as the queryable one. */
  datatype Row = Row(
    title: string,
    author: Option<string>,
    yield_: string,
    time: Option<string>,
    description: Option<string>,
    featured: Option<string>,
    tags: seq<string>,
    ratings: int,
    rating: int,
    subComponents: Option<seq<string>>,
    indices: Option<seq<int>>,
    ingredients: seq<string>,
    quantities: seq<string>,
    steps: seq<string>,
    comments: Option<seq<string>>,
    commentVotes: Option<seq<int>>,
    urlId: string)

  // ---------------------------------------------------------------------------
  // optional pair lists

  /** An optional list of pairs as two optional lists: both absent, or both present with the
      first and second components in order. */
  function UnzipOption<A, B>(o: Option<seq<(A, B)>>): (r: (Option<seq<A>>, Option<seq<B>>))
    ensures r.0.Some? <==> o.Some?
    ensures r.1.Some? <==> o.Some?
    ensures o.Some? ==> |r.0.value| == |r.1.value| == |o.value|
    ensures o.Some? ==> forall k :: 0 <= k < |o.value| ==> o.value[k] == (r.0.value[k], r.1.value[k])
  {
    match o
    case None => (None, None)
    case Some(ps) =>
      var u := Unzip(ps);
      (Some(u.0), Some(u.1))
  }

  /** Two optional lists as one optional list of pairs: present only when both are, and then
      as long as the shorter. */
  function ZipOption<A, B>(a: Option<seq<A>>, b: Option<seq<B>>): (r: Option<seq<(A, B)>>)
    ensures r.Some? <==> a.Some? && b.Some?
    ensures r.Some? ==> |r.value| == Min(|a.value|, |b.value|)
    ensures r.Some? ==> forall k :: 0 <= k < |r.value| ==> r.value[k] == (a.value[k], b.value[k])
  {
    if a.Some? && b.Some? then Some(Zip(a.value, b.value)) else None
  }

  lemma ZipUnzipOption<A, B>(o: Option<seq<(A, B)>>)
    ensures ZipOption(UnzipOption(o).0, UnzipOption(o).1) == o
  {
    if o.Some? {
      ZipUnzip(o.value);
    }
  }

  // ---------------------------------------------------------------------------
  // serialize and new

  /** `Nytc::serialize`: the scalar fields copied, the rating as its discriminant, and each
      list of pairs unzipped into two parallel lists. */
  function Serialize(x: Recipe): (r: Row)
    ensures |r.quantities| == |r.ingredients| == |x.ingredients.ingredients|
    ensures forall k :: 0 <= k < |x.ingredients.ingredients| ==>
      x.ingredients.ingredients[k] == (r.quantities[k], r.ingredients[k])
    ensures r.subComponents.Some? <==> x.ingredients.subComponents.Some?
    ensures r.indices.Some? <==> x.ingredients.subComponents.Some?
    ensures r.comments.Some? <==> x.comments.Some?
    ensures r.commentVotes.Some? <==> x.comments.Some?
    ensures 0 <= r.rating <= 5
  {
    var subs := UnzipOption(x.ingredients.subComponents);
    var pairs := Unzip(x.ingredients.ingredients);
    var comments := UnzipOption(x.comments);
    Row(x.title, x.author, x.yield_, x.time, x.description, x.featured, x.tags, x.ratings,
        Discriminant(x.rating), subs.0, subs.1, pairs.1, pairs.0, x.steps, comments.0,
        comments.1, x.urlId)
  }

  /** `Nytc::new`: the pairs zipped back, truncated to the shorter list; the optional lists
      rebuilt only when both halves are present; the rating read with `Rating::new`. */
  function New(row: Row): (r: Recipe)
    ensures |r.ingredients.ingredients| == Min(|row.quantities|, |row.ingredients|)
    ensures forall k :: 0 <= k < |r.ingredients.ingredients| ==>
      r.ingredients.ingredients[k] == (row.quantities[k], row.ingredients[k])
    ensures r.ingredients.subComponents.Some? <==> row.subComponents.Some? && row.indices.Some?
    ensures r.comments.Some? <==> row.comments.Some? && row.commentVotes.Some?
    ensures r.rating.Zero? <==> !(1 <= row.rating <= 5)
  {
    var subs := ZipOption(row.subComponents, row.indices);
    var ingredients := Ingredients(subs, Zip(row.quantities, row.ingredients));
    var comments := ZipOption(row.comments, row.commentVotes);
    Recipe(row.title, row.author, row.yield_, row.time, row.description, row.featured, row.tags,
           row.ratings, NewRating(row.rating), ingredients, row.steps, comments, row.urlId)
  }

  /** A recipe written as a row and read back is the same recipe. */
  lemma RecipeRoundTrip(x: Recipe)
    ensures New(Serialize(x)) == x
  {
    var row := Serialize(x);
    ZipUnzip(x.ingredients.ingredients);
    ZipUnzipOption(x.ingredients.subComponents);
    ZipUnzipOption(x.comments);
    assert New(row).ingredients == x.ingredients;
  }

  /** The rows `serialize` can produce: parallel lists of equal length, optional lists present
      together, and a rating that is a discriminant. */
  predicate Consistent(row: Row) {
    && |row.quantities| == |row.ingredients|
    && (row.subComponents.Some? <==> row.indices.Some?)
    && (row.subComponents.Some? ==> |row.subComponents.value| == |row.indices.value|)
    && (row.comments.Some? <==> row.commentVotes.Some?)
    && (row.comments.Some? ==> |row.comments.value| == |row.commentVotes.value|)
    && 0 <= row.rating <= 5
  }

  /** Every row `serialize` writes is consistent, and a consistent row read and written again
      is the same row. */
  lemma RowRoundTrip(row: Row)
    ensures Consistent(Serialize(New(row)))
    ensures Consistent(row) ==> Serialize(New(row)) == row
  {
    if Consistent(row) {
      UnzipZip(row.quantities, row.ingredients);
      if row.subComponents.Some? {
        UnzipZip(row.subComponents.value, row.indices.value);
      }
      if row.comments.Some? {
        UnzipZip(row.comments.value, row.commentVotes.value);
      }
      assert Discriminant(NewRating(row.rating)) == row.rating;
    }
  }
}
