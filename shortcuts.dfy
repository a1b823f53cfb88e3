/**
 * The registration shortcuts both `App` classes offer: `get`, `post`, `put`,
 * `patch`, `delete` and `options` register one HTTP method, `any` all six.
 */
module Shortcuts {

  datatype Shortcut = Get | Post | Put | Patch | Delete | Options | Any

  /** The six methods `any` registers (the `Request` constants), in its order. */
  const AllMethods: seq<string> := ["GET", "POST", "PUT", "PATCH", "DELETE", "OPTIONS"]

  /** The method a single-method shortcut is named after. */
  function Verb(s: Shortcut): string
    requires s != Any
  {
    match s
    case Get => "GET"
    case Post => "POST"
    case Put => "PUT"
    case Patch => "PATCH"
    case Delete => "DELETE"
    case Options => "OPTIONS"
  }

  /** The methods a shortcut hands to `map`. */
  function ShortcutMethods(s: Shortcut): (verbs: seq<string>)
    ensures s != Any ==> verbs == [Verb(s)]
    ensures s == Any ==> verbs == AllMethods
  {
    if s == Any then AllMethods else [Verb(s)]
  }

  /**
   * `any` covers exactly the methods of the single shortcuts, each once, and
   * no two single shortcuts share a method.
   */
  lemma AnyCoversSingles(v: string)
    ensures v in ShortcutMethods(Any) <==> exists s :: s != Any && Verb(s) == v
    ensures forall i, j :: 0 <= i < j < |AllMethods| ==> AllMethods[i] != AllMethods[j]
    ensures forall s, t :: s != Any && t != Any && Verb(s) == Verb(t) ==> s == t
  {
    if v in AllMethods {
      var k :| 0 <= k < |AllMethods| && AllMethods[k] == v;
      var singles := [Get, Post, Put, Patch, Delete, Options];
      assert Verb(singles[k]) == v;
    }
  }
}
