/**
  The series RSS feed after XML parsing, as the extractor sees it through
  ElementTree's `find`, `findall`, `.text` and `.attrib.get`.
 */
module Feed {
  import opened Options

  /** A child element looked up with `find`: absent (`find` gives `None`),
      or present with a text that may itself be `None` (an empty element). */
  datatype Element = Missing | Present(text: Option<string>)

  /** One `<enclosure>` child: its `url`, `type` and `length` attributes,
      each `None` when the attribute is not there. */
  datatype Enclosure = Enclosure(url: Option<string>, mimeType: Option<string>, length: Option<string>)

  /** One `./channel/item` element with the children the extractor looks up.
      `contentEncoded` is `content:encoded`; the three `cba:` fields are the
      elements of the archive's own namespace; `enclosures` are the
      `./enclosure` children in document order. */
  datatype Item = Item(
    link: Element,
    title: Element,
    contentEncoded: Element,
    description: Element,
    productionDate: Element,
    broadcastDate: Element,
    containsCopyright: Element,
    enclosures: seq<Enclosure>)

  /** The items of a feed, in document order. */
  type Items = seq<Item>
}
