/** The two descriptions of how Python writes lists agree: the one by which lists are spliced into texts, and
    the one by which the values of a FOR are read. */
module ListWriting {
  import opened ConfigTree
  import opened Sequences
  import opened Placeholders
  import opened Substitution
  import opened ForValues

  function Reprs(items: seq<Node>): seq<string>
    requires forall i :: 0 <= i < |items| ==> Writable(items[i])
  {
    seq(|items|, i requires 0 <= i < |items| => Repr(items[i]))
  }

  lemma WrittenLit(s: string)
    ensures Written([Lit(s)]) == s
  {
    assert Written([Lit(s)]) == s + Written([]);
  }

  lemma {:induction false} ItemsAreWritten(items: seq<Node>)
    requires forall i :: 0 <= i < |items| ==> Writable(items[i])
    ensures Written(ItemsText(items)) == Joined(Reprs(items))
    decreases items, 0
  {
    hide *;
    NothingIsWritten();
    if items != [] {
      var n := |items| - 1;
      ItemsAreWritten(items[..n]);
      ItemIsWritten(items[n]);
      ItemsLast(items);
      ReprsLast(items);
      WrittenSeparated(ItemsText(items[..n]), n == 0, ItemText(items[n]));
      LastJoined(Reprs(items[..n]), Repr(items[n]));
    }
  }

  lemma NothingIsWritten()
    ensures Written(ItemsText([])) == Joined(Reprs([])) == ""
  {}

  lemma ItemsLast(items: seq<Node>)
    requires items != []
    ensures var n := |items| - 1;
      && ItemsText(items) == ItemsText(items[..n]) + (if n == 0 then [] else [Lit(", ")]) + ItemText(items[n])
      && (n == 0 ==> ItemsText(items[..n]) == [])
  {
    hide ItemText;
  }

  lemma ReprsLast(items: seq<Node>)
    requires items != [] && forall i :: 0 <= i < |items| ==> Writable(items[i])
    ensures var n := |items| - 1;
      Reprs(items) == Reprs(items[..n]) + [Repr(items[n])] && (n == 0 <==> Reprs(items[..n]) == [])
  {
    hide Repr, Writable;
    var n := |items| - 1;
    assert forall i :: 0 <= i < n ==> items[..n][i] == items[i];
  }

  lemma WrittenSeparated(before: Tokens, first: bool, item: Tokens)
    requires first ==> before == []
    ensures Written(before + (if first then [] else [Lit(", ")]) + item)
      == if first then Written(item) else Written(before) + ", " + Written(item)
  {
    WrittenLit(", ");
    hide Written;
    if first {
      assert before + [] + item == item;
    } else {
      WrittenConcat(before + [Lit(", ")], item);
      WrittenConcat(before, [Lit(", ")]);
    }
  }

  lemma LastJoined(xs: seq<string>, x: string)
    ensures Joined(xs + [x]) == if xs == [] then x else Joined(xs) + ", " + x
  {
    assert (xs + [x])[..|xs|] == xs;
    Regroup(Joined(xs), ", ", x);
  }

  lemma {:induction false} ItemIsWritten(n: Node)
    requires Writable(n)
    ensures Written(ItemText(n)) == Repr(n)
    decreases n
  {
    if n.Text? {
      WrittenLit("'");
      WrittenConcat([Lit("'")] + n.tokens, [Lit("'")]);
      WrittenConcat([Lit("'")], n.tokens);
    } else {
      ItemsAreWritten(n.items);
      ListIsWritten(n.items);
    }
  }

  lemma ListIsWritten(items: seq<Node>)
    ensures Written(ListText(items)) == "[" + Written(ItemsText(items)) + "]"
  {
    WrittenLit("[");
    WrittenLit("]");
    hide Written;
    WrittenConcat([Lit("[")] + ItemsText(items), [Lit("]")]);
    WrittenConcat([Lit("[")], ItemsText(items));
  }

  /** A list of plain texts is spliced as Python writes it, between brackets, with its texts between quotes
      and after commas; an empty list is spliced as nothing. */
  lemma ListsAreSplicedAsWritten(items: seq<Node>, str: Str)
    requires Writable(Items(items)) && WritesPlainly(str)
    ensures items != [] ==> Written(Shown(Items(items))) == str(Items(items)) == "[" + Joined(Reprs(items)) + "]"
    ensures items == [] ==> Shown(Items(items)) == []
  {
    ItemsAreWritten(items);
    ListIsWritten(items);
    hide ListText, ItemsText, Written, Joined;
  }

  /** A list of texts. */
  lemma TextsAreSplicedAsWritten(xs: seq<string>)
    requires xs != [] && AllQuotable(xs)
    ensures Written(Shown(TextList(xs))) == "[" + Joined(Quoted(xs)) + "]"
  {
    ReprOfTexts(xs);
    ItemsAreWritten(TextNodes(xs));
    ListIsWritten(TextNodes(xs));
    hide ListText, ItemsText, Written, Joined;
    assert Items(TextNodes(xs)) == TextList(xs);
  }

  lemma TwoTexts()
    ensures Written(Shown(TextList(["a", "b"]))) == "['a', 'b']"
  {
    hide *;
    var xs := ["a", "b"];
    AreQuotable();
    TextsAreSplicedAsWritten(xs);
    LastJoined(["'a'"], "'b'");
    JoinedOne("'a'");
    assert ["'a'"] + ["'b'"] == ["'a'", "'b'"];
  }

  lemma AreQuotable()
    ensures AllQuotable(["a", "b"]) && Quoted(["a", "b"]) == ["'a'", "'b'"]
  {
    assert "'" + "a" + "'" == "'a'" && "'" + "b" + "'" == "'b'";
  }
}
