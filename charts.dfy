/** The data shaping of docs/js/charts.js: the single-household doughnut,
    which keeps categories with a share of at least 5 percent and folds the
    rest into one trailing "기타" (other) slice, and the colour rule of the
    CPI bar chart. */
module Charts {

  /** One entry of `single.categories`: its name, its share of spending in
      percent and its monthly amount in yen. */
  datatype ExpenseCategory = ExpenseCategory(name: string, share: real, amount: int)

  /** The `labels` and `data` handed to the doughnut chart. */
  datatype Doughnut = Doughnut(labels: seq<string>, data: seq<int>)

  const OtherLabel := "기타"

  predicate IsMajor(c: ExpenseCategory)
  {
    c.share >= 5.0
  }

  /** `categories.filter(c => c.share >= 5)`. */
  function Major(cs: seq<ExpenseCategory>): (m: seq<ExpenseCategory>)
    ensures forall i :: 0 <= i < |m| ==> IsMajor(m[i])
  {
    if cs == [] then []
    else if IsMajor(cs[0]) then [cs[0]] + Major(cs[1..])
    else Major(cs[1..])
  }

  /** `categories.filter(c => c.share < 5)`. */
  function Minor(cs: seq<ExpenseCategory>): (m: seq<ExpenseCategory>)
    ensures forall i :: 0 <= i < |m| ==> !IsMajor(m[i])
  {
    if cs == [] then []
    else if !IsMajor(cs[0]) then [cs[0]] + Minor(cs[1..])
    else Minor(cs[1..])
  }

  /** The two filters split the categories: each category lands in exactly
      one of them. */
  lemma {:induction false} PartitionOfCategories(cs: seq<ExpenseCategory>)
    ensures multiset(Major(cs)) + multiset(Minor(cs)) == multiset(cs)
  {
    if cs != [] {
      PartitionOfCategories(cs[1..]);
      assert cs == [cs[0]] + cs[1..];
    }
  }

  /** Filtering keeps the input order: filtering a concatenation is
      concatenating the filtered parts. */
  lemma {:induction false} MajorKeepsOrder(cs: seq<ExpenseCategory>, ds: seq<ExpenseCategory>)
    ensures Major(cs + ds) == Major(cs) + Major(ds)
  {
    if cs == [] {
      assert cs + ds == ds;
    } else {
      MajorKeepsOrder(cs[1..], ds);
      assert (cs + ds)[1..] == cs[1..] + ds;
    }
  }

  lemma {:induction false} MinorKeepsOrder(cs: seq<ExpenseCategory>, ds: seq<ExpenseCategory>)
    ensures Minor(cs + ds) == Minor(cs) + Minor(ds)
  {
    if cs == [] {
      assert cs + ds == ds;
    } else {
      MinorKeepsOrder(cs[1..], ds);
      assert (cs + ds)[1..] == cs[1..] + ds;
    }
  }

  /** When every category has a share of at least 5, all of them are kept
      and nothing is small. */
  lemma {:induction false} AllMajor(cs: seq<ExpenseCategory>)
    requires forall i :: 0 <= i < |cs| ==> IsMajor(cs[i])
    ensures Major(cs) == cs && Minor(cs) == []
  {
    if cs != [] {
      AllMajor(cs[1..]);
    }
  }

  /** The total of the amounts, summed from the right. */
  function Total(cs: seq<ExpenseCategory>): int
  {
    if cs == [] then 0 else cs[0].amount + Total(cs[1..])
  }

  /** `cs.reduce((s, c) => s + c.amount, acc)`: a left fold. */
  function Reduce(cs: seq<ExpenseCategory>, acc: int): (sum: int)
    ensures sum == acc + Total(cs)
  {
    if cs == [] then acc else Reduce(cs[1..], acc + cs[0].amount)
  }

  /** `main.map(c => c.name)`. */
  function Names(cs: seq<ExpenseCategory>): (r: seq<string>)
    ensures |r| == |cs| && forall i :: 0 <= i < |cs| ==> r[i] == cs[i].name
  {
    seq(|cs|, i requires 0 <= i < |cs| => cs[i].name)
  }

  /** `main.map(c => c.amount)`. */
  function Amounts(cs: seq<ExpenseCategory>): (r: seq<int>)
    ensures |r| == |cs| && forall i :: 0 <= i < |cs| ==> r[i] == cs[i].amount
  {
    seq(|cs|, i requires 0 <= i < |cs| => cs[i].amount)
  }

  function Sum(xs: seq<int>): int
  {
    if xs == [] then 0 else xs[0] + Sum(xs[1..])
  }

  lemma {:induction false} SumAmounts(cs: seq<ExpenseCategory>)
    ensures Sum(Amounts(cs)) == Total(cs)
  {
    if cs != [] {
      SumAmounts(cs[1..]);
      assert Amounts(cs)[1..] == Amounts(cs[1..]);
    }
  }

  lemma {:induction false} SumAppend(xs: seq<int>, x: int)
    ensures Sum(xs + [x]) == Sum(xs) + x
  {
    if xs != [] {
      SumAppend(xs[1..], x);
      assert (xs + [x])[1..] == xs[1..] + [x];
    }
  }

  lemma {:induction false} TotalSplits(cs: seq<ExpenseCategory>)
    ensures Total(cs) == Total(Major(cs)) + Total(Minor(cs))
  {
    if cs != [] {
      TotalSplits(cs[1..]);
    }
  }

  /** The labels and data of `buildSingleExpenseChart`. */
  function SingleExpense(cs: seq<ExpenseCategory>): (d: Doughnut)
    ensures |d.labels| == |d.data| == |Major(cs)| + 1
    ensures forall i :: 0 <= i < |Major(cs)| ==>
              d.labels[i] == Major(cs)[i].name && d.data[i] == Major(cs)[i].amount
    ensures d.labels[|Major(cs)|] == OtherLabel
    ensures d.data[|Major(cs)|] == Total(Minor(cs))
  {
    var main := Major(cs);
    var otherSum := Reduce(Minor(cs), 0);
    Doughnut(Names(main) + [OtherLabel], Amounts(main) + [otherSum])
  }

  /** With no small category the trailing slice is still there, worth 0. */
  lemma NoMinorMeansZeroOther(cs: seq<ExpenseCategory>)
    requires forall i :: 0 <= i < |cs| ==> IsMajor(cs[i])
    ensures SingleExpense(cs) == Doughnut(Names(cs) + [OtherLabel], Amounts(cs) + [0])
  {
    AllMajor(cs);
  }

  /** The partition loses and duplicates nothing: the slices add up to the
      total of all categories. */
  lemma SingleExpenseConservesTotal(cs: seq<ExpenseCategory>)
    ensures Sum(SingleExpense(cs).data) == Total(cs)
  {
    var d := SingleExpense(cs);
    var main := Major(cs);
    assert d.data == Amounts(main) + [Total(Minor(cs))];
    SumAppend(Amounts(main), Total(Minor(cs)));
    SumAmounts(main);
    TotalSplits(cs);
  }

  /** The colours of docs/js/charts.js used by the CPI bars. */
  datatype BarColour = Blue | Red | Orange
  {
    function Hex(): string
    {
      match this
      case Blue => "#3a6ea5"
      case Red => "#e05252"
      case Orange => "#e5953a"
    }
  }

  /** The bar colour for a year-on-year change of `v` percent. */
  function CpiBarColour(v: real): (c: BarColour)
    ensures c == Blue <==> v < 0.0
    ensures c == Red <==> v > 5.0
    ensures c == Orange <==> 0.0 <= v <= 5.0
  {
    if v < 0.0 then Blue else if v > 5.0 then Red else Orange
  }
}
