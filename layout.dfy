/**
  * The two pieces of navigation chrome in diss_website.py that carry a rule:
  * the dismissible top banner and the item sequence of the breadcrumb trail.
  */
module Layout {

  /** The top banner's component state: `hidden` is the source's `hide` flag (`hide` is a Dafny keyword). */
  class TopBannerBasic {
    var hidden: bool

    /** The banner starts visible. */
    constructor ()
      ensures !hidden
    {
      hidden := false;
    }

    /** `toggle`: flips visibility. */
    method Toggle()
      modifies this
      ensures hidden == !old(hidden)
    {
      hidden := !hidden;
    }
  }

  /** One crumb: a title and a link target, empty for the current page. */
  datatype Crumb = Crumb(title: string, href: string)

  /** One element of the rendered trail. */
  datatype Item =
    | Link(text: string, target: string)   // a link to an earlier page
    | CurrentPage(text: string)            // the grey label of the page being shown
    | Separator                            // the arrow between two crumbs

  /** The item a crumb renders as: a link when its href is non-empty. */
  function CrumbItem(c: Crumb): (it: Item)
    ensures it.Link? <==> c.href != ""
    ensures it.Link? ==> it == Link(c.title, c.href)
    ensures !it.Link? ==> it == CurrentPage(c.title)
  {
    if c.href != "" then Link(c.title, c.href) else CurrentPage(c.title)
  }

  /**
    * The item loop of `breadcrumb_trail`: every crumb in order, with a
    * separator after each crumb but the last, so separators sit exactly at
    * the odd positions and crumb j is at position 2j.
    */
  method BreadcrumbItems(crumbs: seq<Crumb>) returns (items: seq<Item>)
    ensures |items| == if |crumbs| == 0 then 0 else 2 * |crumbs| - 1
    ensures forall j :: 0 <= j < |crumbs| ==> items[2 * j] == CrumbItem(crumbs[j])
    ensures forall p :: 0 <= p < |items| ==> (items[p] == Separator <==> p % 2 == 1)
  {
    items := [];
    var index := 0;
    while index < |crumbs|
      invariant 0 <= index <= |crumbs|
      invariant |items| == if index == 0 then 0
                           else if index < |crumbs| then 2 * index else 2 * index - 1
      invariant forall j :: 0 <= j < index ==> items[2 * j] == CrumbItem(crumbs[j])
      invariant forall p :: 0 <= p < |items| ==> (items[p] == Separator <==> p % 2 == 1)
    {
      var c := crumbs[index];
      if c.href != "" {
        items := items + [Link(c.title, c.href)];
      } else {
        items := items + [CurrentPage(c.title)];
      }
      if index < |crumbs| - 1 {
        items := items + [Separator];
      }
      index := index + 1;
    }
  }
}
