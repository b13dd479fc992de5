/**
 The feed records of the `gorilla/feeds` library, reduced to the fields the
 program sets. The pointers `*Link` and `*Author` it stores are never nil
 here, so they are held by value.
 */
module Feeds {
  import Time

  datatype Link = Link(href: string)

  datatype Author = Author(name: string, email: string)

  /** One feed entry. */
  datatype Item = Item(
    title: string,
    link: Link,
    created: Time.Time,
    description: string,
    author: Author)

  /** A feed: its own metadata and its entries in order. */
  datatype Feed = Feed(
    title: string,
    link: Link,
    description: string,
    author: Author,
    copyright: string,
    items: seq<Item>)
}
