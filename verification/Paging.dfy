/** How a listing is cut into pages. */
module Paging {
  const PER_PAGE: nat := 200

  function PageOf<T>(xs: seq<T>, page: nat): seq<T>
    requires page > 0
  {
    var from := PER_PAGE * (page - 1);
    if from >= |xs| then [] else if from + PER_PAGE >= |xs| then xs[from..] else xs[from..from + PER_PAGE]
  }

  /** What the first pages of a listing hold together. */
  function Pages<T>(xs: seq<T>, count: nat): seq<T> {
    if PER_PAGE * count >= |xs| then xs else xs[..PER_PAGE * count]
  }

  lemma NextPage<T>(xs: seq<T>, page: nat)
    requires page > 0
    ensures Pages(xs, page) == Pages(xs, page - 1) + PageOf(xs, page)
  {
  }
}
