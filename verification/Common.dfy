/**
 Small definitions that several models share.
 */
module Common {

  datatype Option<+T> = None | Some(value: T)

  function Power2(k: nat): (p: nat)
    ensures p >= 1
  {
    if k == 0 then 1 else 2 * Power2(k - 1)
  }

  lemma Assoc(a: string, b: string, c: string)
    ensures a + b + c == a + (b + c)
  {}

  // The elements of a set in some order.
  method ToSlice(items: set<string>) returns (list: seq<string>)
    ensures forall m :: m in list <==> m in items
  {
    list := [];
    var todo := items;
    while todo != {}
      invariant todo <= items && forall m :: m in list <==> m in items && m !in todo
      decreases |todo|
    {
      var m: string :| m in todo;
      list, todo := list + [m], todo - {m};
    }
  }
}
