/** `fallback_categorize` (SBAK.py:27-33): a message is lower-cased and tested for
    keywords in a fixed order of priority; the first group with a keyword present
    names the category. */
module Categorise {
  import opened Text

  /** The closed set of categories the rule can produce. */
  datatype Label = Shopping | Food | Fuel | Utilities | Others

  /** The text the rule writes into the `category` column. */
  function Name(l: Label): (s: string)
    ensures s != []
  {
    match l
    case Shopping => "Shopping"
    case Food => "Food"
    case Fuel => "Fuel"
    case Utilities => "Utilities"
    case Others => "Others"
  }

  /** Labels are told apart by their names. */
  lemma NameInjective(l: Label, m: Label)
    requires Name(l) == Name(m)
    ensures l == m
  {
  }

  /** The keywords that select each label; `Others` has none. */
  function Keywords(l: Label): seq<string> {
    match l
    case Shopping => ["amazon"]
    case Food => ["swiggy", "zomato"]
    case Fuel => ["petrol", "fuel"]
    case Utilities => ["bill", "electricity"]
    case Others => []
  }

  /** Earlier tests win: a smaller number is a higher priority. */
  function Priority(l: Label): nat {
    match l
    case Shopping => 0
    case Food => 1
    case Fuel => 2
    case Utilities => 3
    case Others => 4
  }

  /** One of the keywords of `l` occurs in the lower-cased text `t`. */
  predicate Triggers(l: Label, t: string) {
    exists k :: 0 <= k < |Keywords(l)| && Contains(t, Keywords(l)[k])
  }

  /** The category of a message: the highest-priority label one of whose keywords
      occurs in the lower-cased message, and `Others` when no keyword occurs. */
  function Categorize(msg: string): (l: Label)
    ensures Triggers(l, Lower(msg)) || (l == Others && forall m :: !Triggers(m, Lower(msg)))
    ensures forall m :: Priority(m) < Priority(l) ==> !Triggers(m, Lower(msg))
  {
    var t := Lower(msg);
    if Contains(t, "amazon") then
      assert Keywords(Shopping)[0] == "amazon";
      Shopping
    else if Contains(t, "swiggy") || Contains(t, "zomato") then
      assert Keywords(Food)[0] == "swiggy" && Keywords(Food)[1] == "zomato";
      Food
    else if Contains(t, "petrol") || Contains(t, "fuel") then
      assert Keywords(Fuel)[0] == "petrol" && Keywords(Fuel)[1] == "fuel";
      Fuel
    else if Contains(t, "bill") || Contains(t, "electricity") then
      assert Keywords(Utilities)[0] == "bill" && Keywords(Utilities)[1] == "electricity";
      Utilities
    else
      assert forall m :: !Triggers(m, t) by {
        forall m ensures !Triggers(m, t) {
          assert forall k :: 0 <= k < |Keywords(m)| ==> !Contains(t, Keywords(m)[k]);
        }
      }
      Others
  }

  /** The converse of the contract of `Categorize`: a label that is triggered, and
      before which no label is triggered, is the category. */
  lemma FirstTriggered(msg: string, l: Label)
    requires l != Others && Triggers(l, Lower(msg))
    requires forall m :: Priority(m) < Priority(l) ==> !Triggers(m, Lower(msg))
    ensures Categorize(msg) == l
  {
  }

  /** The seven keywords the rule looks for. */
  const AllKeywords: seq<string> := ["amazon", "swiggy", "zomato", "petrol", "fuel", "bill", "electricity"]

  /** A message falls under `Others` exactly when none of the seven keywords occurs
      in it. */
  lemma OthersWithoutKeywords(msg: string)
    ensures Categorize(msg) == Others <==> forall k :: 0 <= k < |AllKeywords| ==> !Contains(Lower(msg), AllKeywords[k])
  {
    var t := Lower(msg);
    if Categorize(msg) == Others {
      forall k | 0 <= k < |AllKeywords| ensures !Contains(t, AllKeywords[k]) {
        var l := if k == 0 then Shopping else if k <= 2 then Food else if k <= 4 then Fuel else Utilities;
        var j := if k == 0 || k == 1 || k == 3 || k == 5 then 0 else 1;
        assert Keywords(l)[j] == AllKeywords[k];
        assert !Triggers(l, t);
      }
    } else {
      var l := Categorize(msg);
      var j :| 0 <= j < |Keywords(l)| && Contains(t, Keywords(l)[j]);
      var k := match l
        case Shopping => 0
        case Food => 1 + j
        case Fuel => 3 + j
        case Utilities => 5 + j
        case Others => 0;
      assert AllKeywords[k] == Keywords(l)[j];
    }
  }

  /** The rule ignores the case of the message. */
  lemma CaseInsensitive(msg: string)
    ensures Categorize(Lower(msg)) == Categorize(msg)
  {
    LowerIdempotent(msg);
  }

  /** Two messages that agree up to case fall under the same category. */
  lemma SameUpToCase(a: string, b: string)
    requires Lower(a) == Lower(b)
    ensures Categorize(a) == Categorize(b)
  {
  }

  /** A keyword keeps occurring once text is added around the message. */
  lemma {:induction false} TriggersExtended(l: Label, a: string, m: string, b: string)
    requires Triggers(l, Lower(m))
    ensures Triggers(l, Lower(a + m + b))
  {
    var k :| 0 <= k < |Keywords(l)| && Contains(Lower(m), Keywords(l)[k]);
    LowerAppend(a, m);
    LowerAppend(a + m, b);
    ContainsExtended(Lower(a), Lower(m), Lower(b), Keywords(l)[k]);
  }

  /** Adding text around a message can only raise the priority of its category:
      a longer message never falls back to a lower-priority label. */
  lemma ExtendingKeepsPriority(a: string, m: string, b: string)
    ensures Priority(Categorize(a + m + b)) <= Priority(Categorize(m))
  {
    var l := Categorize(m);
    if l != Others {
      TriggersExtended(l, a, m, b);
    }
  }

  // Worked examples.

  /** "bill" occurs inside "billing", so the message is a utility payment. */
  lemma BillingIsUtilities(msg: string)
    requires msg == "billing"
    ensures Categorize(msg) == Utilities
  {
    var t := Lower(msg);
    assert t == "billing";
    assert OccursAt(t, "bill", 0);
    FirstCharAbsent(t, "amazon");
    FirstCharAbsent(t, "swiggy");
    FirstCharAbsent(t, "zomato");
    FirstCharAbsent(t, "petrol");
    FirstCharAbsent(t, "fuel");
  }

  /** Keywords are found whatever their case: "Swiggy" is a food order. */
  lemma SwiggyIsFood(msg: string)
    requires msg == "Swiggy order"
    ensures Categorize(msg) == Food
  {
    var t := Lower(msg);
    assert t == "swiggy order";
    assert OccursAt(t, "swiggy", 0);
    FirstCharAbsent(t, "amazon");
  }

  /** A debit to Amazon is shopping. */
  lemma AmazonIsShopping(msg: string)
    requires msg == "Paid \U{20B9}1,234.50 to Amazon"
    ensures Categorize(msg) == Shopping
  {
    var t := Lower(msg);
    assert t == "paid \U{20B9}1,234.50 to amazon";
    assert OccursAt(t, "amazon", 18);
  }

  /** Fuel is tested before bills: a fuel bill is fuel. */
  lemma FuelBeforeBill(msg: string)
    requires msg == "Fuel bill"
    ensures Categorize(msg) == Fuel
  {
    var t := Lower(msg);
    assert t == "fuel bill";
    assert OccursAt(t, "fuel", 0);
    FirstCharAbsent(t, "amazon");
    FirstCharAbsent(t, "swiggy");
    FirstCharAbsent(t, "zomato");
  }
}
