/**
 The SQL builders.  Each keeps texts and arguments apart and joins them when building; what has to be
 right is that every placeholder of the built text meets the argument it was written with.
 */
module SqlBuilders {
  import opened Texts
  import opened Decimals
  import opened SqlTexts

  // ----- SELECT -----

  /** A call that adds a condition, or one that sets the HAVING condition. */
  datatype Call<+A> = Cond(clause: Clause<A>) | Having(clause: Clause<A>)

  function Conditions<A>(calls: seq<Call<A>>): seq<Clause<A>> {
    if calls == [] then [] else
      var last := calls[|calls| - 1];
      Conditions(calls[..|calls| - 1]) + if last.Cond? then [last.clause] else []
  }

  /** The latest HAVING call overwrites the text of earlier ones. */
  function LastHaving<A>(calls: seq<Call<A>>): Clause<A> {
    if calls == [] then Clause("", []) else
      var last := calls[|calls| - 1];
      if last.Having? then last.clause else LastHaving(calls[..|calls| - 1])
  }

  /** The arguments in the order of the calls. */
  function CallArgs<A>(calls: seq<Call<A>>): seq<A> {
    if calls == [] then [] else CallArgs(calls[..|calls| - 1]) + calls[|calls| - 1].clause.args
  }

  /** The parts of a query around its conditions. */
  datatype Frame = Frame(table: string, fields: seq<string>, groupBy: string, orderBy: string,
                         limit: int, offset: int)
  {
    function Head(): string {
      "SELECT " + (if fields == [] then "*" else Join(fields, ", ")) + " FROM " + table
    }

    function Group(): string {
      if groupBy == "" then "" else " GROUP BY " + groupBy
    }

    function Tail(): string {
      (if orderBy == "" then "" else " ORDER BY " + orderBy)
      + (if limit > 0 then " LIMIT " + Itoa(limit) else "")
      + (if offset > 0 then " OFFSET " + Itoa(offset) else "")
    }

    /** The names the caller gave contain no placeholder. */
    predicate NoHoles() {
      Holes(Head()) == 0 && Holes(Group()) == 0 && Holes(orderBy) == 0
    }
  }

  function WhereText(conditions: seq<string>): string {
    if conditions == [] then "" else " WHERE " + Join(conditions, " AND ")
  }

  function HavingText(having: string): string {
    if having == "" then "" else " HAVING " + having
  }

  function QueryText(f: Frame, where_: seq<string>, having: string): string {
    f.Head() + WhereText(where_) + f.Group() + HavingText(having) + f.Tail()
  }

  class QueryBuilder<A> {
    var frame: Frame
    var where_: seq<string>
    var args: seq<A>
    var having: string
    ghost var calls: seq<Call<A>>

    /** Texts and arguments are those of the calls so far. */
    ghost predicate Valid()
      reads this
    {
      && where_ == ClauseTexts(Conditions(calls))
      && having == LastHaving(calls).text
      && args == CallArgs(calls)
    }

    constructor (table: string)
      ensures Valid() && calls == [] && frame == Frame(table, [], "", "", 0, 0)
    {
      frame := Frame(table, [], "", "", 0, 0);
      where_, args, having, calls := [], [], "", [];
    }

    method Select(fields: seq<string>)
      modifies this`frame
      ensures frame == old(frame).(fields := fields)
    {
      frame := frame.(fields := fields);
    }

    method GroupBy(group: string)
      modifies this`frame
      ensures frame == old(frame).(groupBy := group)
    {
      frame := frame.(groupBy := group);
    }

    method OrderBy(order: string)
      modifies this`frame
      ensures frame == old(frame).(orderBy := order)
    {
      frame := frame.(orderBy := order);
    }

    method Limit(limit: int)
      modifies this`frame
      ensures frame == old(frame).(limit := limit)
    {
      frame := frame.(limit := limit);
    }

    method Offset(offset: int)
      modifies this`frame
      ensures frame == old(frame).(offset := offset)
    {
      frame := frame.(offset := offset);
    }

    method Where(condition: string, values: seq<A>)
      requires Valid()
      modifies this`where_, this`args, this`calls
      ensures Valid() && calls == old(calls) + [Cond(Clause(condition, values))]
    {
      where_ := where_ + [condition];
      args := args + values;
      calls := calls + [Cond(Clause(condition, values))];
      ConditionsSnoc(old(calls), calls[|calls| - 1]);
    }

    /** As many placeholders as values. */
    method WhereIn(field: string, values: seq<A>)
      requires Valid()
      modifies this`where_, this`args, this`calls
      ensures Valid() && calls == old(calls) + [Cond(Clause(field + " IN (" + Join(Marks(|values|), ",") + ")", values))]
    {
      var placeholders: seq<string> := [];
      for i := 0 to |values|
        invariant placeholders == Marks(i) && Valid() && calls == old(calls)
      {
        placeholders := placeholders + ["?"];
        MarksSnoc(i);
      }
      Where(field + " IN (" + Join(placeholders, ",") + ")", values);
    }

    method WhereLike(field: string, pattern: A)
      requires Valid()
      modifies this`where_, this`args, this`calls
      ensures Valid() && calls == old(calls) + [Cond(Clause(field + " LIKE ?", [pattern]))]
    {
      Where(field + " LIKE ?", [pattern]);
    }

    method Having(condition: string, values: seq<A>)
      requires Valid()
      modifies this`having, this`args, this`calls
      ensures Valid() && calls == old(calls) + [Call.Having(Clause(condition, values))]
    {
      having := condition;
      args := args + values;
      calls := calls + [Call.Having(Clause(condition, values))];
      ConditionsSnoc(old(calls), calls[|calls| - 1]);
    }

    method Build() returns (sql: string, values: seq<A>)
      requires Valid()
      ensures sql == QueryText(frame, ClauseTexts(Conditions(calls)), LastHaving(calls).text)
      ensures values == CallArgs(calls)
    {
      sql := "SELECT ";
      if |frame.fields| > 0 {
        sql := sql + Join(frame.fields, ", ");
      } else {
        sql := sql + "*";
      }
      sql := sql + " FROM ";
      sql := sql + frame.table;
      assert sql == frame.Head();
      if |where_| > 0 {
        sql := sql + (" WHERE " + Join(where_, " AND "));
      }
      assert sql == frame.Head() + WhereText(where_);
      if frame.groupBy != "" {
        sql := sql + (" GROUP BY " + frame.groupBy);
      }
      assert sql == frame.Head() + WhereText(where_) + frame.Group();
      if having != "" {
        sql := sql + (" HAVING " + having);
      }
      assert sql == frame.Head() + WhereText(where_) + frame.Group() + HavingText(having);
      var tail := "";
      if frame.orderBy != "" {
        tail := tail + (" ORDER BY " + frame.orderBy);
      }
      if frame.limit > 0 {
        tail := tail + (" LIMIT " + Itoa(frame.limit));
      }
      if frame.offset > 0 {
        tail := tail + (" OFFSET " + Itoa(frame.offset));
      }
      assert tail == frame.Tail();
      sql := sql + tail;
      values := args;
    }
  }

  lemma ConditionsSnoc<A>(calls: seq<Call<A>>, c: Call<A>)
    ensures Conditions(calls + [c]) == Conditions(calls) + if c.Cond? then [c.clause] else []
    ensures ClauseTexts(Conditions(calls + [c])) == ClauseTexts(Conditions(calls)) + if c.Cond? then [c.clause.text] else []
    ensures Args(Conditions(calls + [c])) == Args(Conditions(calls)) + if c.Cond? then c.clause.args else []
    ensures LastHaving(calls + [c]) == if c.Having? then c.clause else LastHaving(calls)
    ensures CallArgs(calls + [c]) == CallArgs(calls) + c.clause.args
  {
    assert (calls + [c])[..|calls|] == calls;
    TextsSnoc(Conditions(calls), c.clause);
    assert Conditions(calls) + [] == Conditions(calls);
    assert ClauseTexts(Conditions(calls)) + [] == ClauseTexts(Conditions(calls));
    assert Args(Conditions(calls)) + [] == Args(Conditions(calls));
  }

  lemma {:induction false} MarksSnoc(n: nat)
    ensures Marks(n) + ["?"] == Marks(n + 1)
  {
    if n > 0 {
      MarksSnoc(n - 1);
    }
  }

  /** `WhereIn` and `WhereLike` write as many placeholders as arguments. */
  lemma InAndLikeFit<A>(field: string, values: seq<A>, pattern: A)
    requires Holes(field) == 0
    ensures Clause(field + " IN (" + Join(Marks(|values|), ",") + ")", values).Fits()
    ensures Clause(field + " LIKE ?", [pattern]).Fits()
  {
    InFits(field, values);
    LikeFits(field);
    hide Holes, Join, Marks;
  }

  lemma InFits<A>(field: string, values: seq<A>)
    requires Holes(field) == 0
    ensures Holes(field + " IN (" + Join(Marks(|values|), ",") + ")") == |values|
  {
    NoMark(" IN (");
    NoMark(")");
    hide Holes, Join, Marks;
    MarksHoles(values);
    HolesConcat(field, " IN (");
    HolesConcat(field + " IN (", Join(Marks(|values|), ","));
    HolesConcat(field + " IN (" + Join(Marks(|values|), ","), ")");
  }

  lemma LikeFits(field: string)
    requires Holes(field) == 0
    ensures Holes(field + " LIKE ?") == 1
  {
    NoMark(" LIKE ");
    assert Holes("?") == 1;
    hide Holes;
    HolesConcat(" LIKE ", "?");
    assert " LIKE " + "?" == " LIKE ?";
    HolesConcat(field, " LIKE ?");
  }

  ghost predicate CallsFit<A>(calls: seq<Call<A>>) {
    forall i :: 0 <= i < |calls| ==> calls[i].clause.Fits()
  }

  lemma {:induction false} ConditionsFit<A>(calls: seq<Call<A>>)
    requires CallsFit(calls)
    ensures AllFit(Conditions(calls)) && LastHaving(calls).Fits()
  {
    if calls != [] {
      ConditionsFit(calls[..|calls| - 1]);
    }
  }

  /** The query as the caller meant it: every condition bound to the arguments it was given with. */
  function Intended<A>(f: Frame, conditions: seq<Clause<A>>, having: Clause<A>): seq<Piece<A>>
    requires f.NoHoles() && AllFit(conditions) && having.Fits()
  {
    TailHoles(f);
    Bind(f.Head(), []) + BoundWhere(conditions) + Bind(f.Group(), []) + BoundHaving(having) + Bind(f.Tail(), [])
  }

  function BoundWhere<A>(conditions: seq<Clause<A>>): seq<Piece<A>>
    requires AllFit(conditions)
  {
    NoMark(" WHERE ");
    NoMark(" AND ");
    if conditions == [] then [] else Bind(" WHERE ", []) + BoundJoin(conditions, " AND ")
  }

  function BoundHaving<A>(having: Clause<A>): seq<Piece<A>>
    requires having.Fits()
  {
    NoMark(" HAVING ");
    if having.text == "" then [] else Bind(" HAVING ", []) + Bind(having.text, having.args)
  }

  lemma TailHoles(f: Frame)
    requires f.NoHoles()
    ensures Holes(f.Tail()) == 0
  {
    var order := if f.orderBy == "" then "" else " ORDER BY " + f.orderBy;
    var limit := if f.limit > 0 then " LIMIT " + Itoa(f.limit) else "";
    var offset := if f.offset > 0 then " OFFSET " + Itoa(f.offset) else "";
    OrderHoles(f.orderBy);
    NumberHoles(f.limit);
    NumberHoles(f.offset);
    hide Holes, Itoa;
    HolesConcat(order, limit);
    HolesConcat(order + limit, offset);
  }

  lemma OrderHoles(orderBy: string)
    requires Holes(orderBy) == 0
    ensures Holes(if orderBy == "" then "" else " ORDER BY " + orderBy) == 0
  {
    NoMark(" ORDER BY ");
    hide Holes;
    HolesConcat(" ORDER BY ", orderBy);
  }

  lemma NumberHoles(n: int)
    ensures Holes(if n > 0 then " LIMIT " + Itoa(n) else "") == 0
    ensures Holes(if n > 0 then " OFFSET " + Itoa(n) else "") == 0
  {
    NoMark(" LIMIT ");
    NoMark(" OFFSET ");
    assert Holes("") == 0;
    hide Holes;
    if n > 0 {
      NumbersHaveNoHoles(n);
      hide Itoa;
      HolesConcat(" LIMIT ", Itoa(n));
      HolesConcat(" OFFSET ", Itoa(n));
    }
  }

  lemma BindWhere<A>(conditions: seq<Clause<A>>)
    requires AllFit(conditions)
    ensures Holes(WhereText(ClauseTexts(conditions))) == |Args(conditions)|
    ensures Bind(WhereText(ClauseTexts(conditions)), Args(conditions))
            == BoundWhere(conditions)
  {
    NoMark(" WHERE ");
    NoMark(" AND ");
    if conditions != [] {
      assert ClauseTexts(conditions) != [];
      BindJoin(conditions, " AND ");
      BindConcat(" WHERE ", [], Join(ClauseTexts(conditions), " AND "), Args(conditions));
      assert [] + Args(conditions) == Args(conditions);
    }
  }

  lemma BindHaving<A>(having: Clause<A>)
    requires having.Fits()
    ensures Holes(HavingText(having.text)) == |having.args|
    ensures Bind(HavingText(having.text), having.args)
            == BoundHaving(having)
  {
    NoMark(" HAVING ");
    if having.text != "" {
      BindConcat(" HAVING ", [], having.text, having.args);
      assert [] + having.args == having.args;
    }
  }

  /** The text alone asks for the conditions' arguments followed by those of the HAVING. */
  lemma TextWantsWhereThenHaving<A>(f: Frame, conditions: seq<Clause<A>>, having: Clause<A>)
    requires f.NoHoles() && AllFit(conditions) && having.Fits()
    ensures Holes(QueryText(f, ClauseTexts(conditions), having.text)) == |Args(conditions) + having.args|
    ensures Bind(QueryText(f, ClauseTexts(conditions), having.text), Args(conditions) + having.args)
            == Intended(f, conditions, having)
  {
    TailHoles(f);
    BindWhere(conditions);
    BindHaving(having);
    hide Intended, Bind, Holes, WhereText, HavingText, Args, ClauseTexts;
    var w, h := WhereText(ClauseTexts(conditions)), HavingText(having.text);
    var none: seq<A> := [];
    BindConcat(f.Head(), none, w, Args(conditions));
    assert none + Args(conditions) == Args(conditions);
    BindConcat(f.Head() + w, Args(conditions), f.Group(), none);
    assert Args(conditions) + none == Args(conditions);
    BindConcat(f.Head() + w + f.Group(), Args(conditions), h, having.args);
    BindConcat(f.Head() + w + f.Group() + h, Args(conditions) + having.args, f.Tail(), none);
    assert Args(conditions) + having.args + none == Args(conditions) + having.args;
    assert QueryText(f, ClauseTexts(conditions), having.text) == f.Head() + w + f.Group() + h + f.Tail();
    IntendedParts(f, conditions, having);
  }

  lemma IntendedParts<A>(f: Frame, conditions: seq<Clause<A>>, having: Clause<A>)
    requires f.NoHoles() && AllFit(conditions) && having.Fits()
    ensures Holes(f.Tail()) == 0
    ensures Holes(WhereText(ClauseTexts(conditions))) == |Args(conditions)|
    ensures Holes(HavingText(having.text)) == |having.args|
    ensures Intended(f, conditions, having)
            == Bind(f.Head(), []) + Bind(WhereText(ClauseTexts(conditions)), Args(conditions)) + Bind(f.Group(), [])
               + Bind(HavingText(having.text), having.args) + Bind(f.Tail(), [])
  {
    TailHoles(f);
    BindWhere(conditions);
    BindHaving(having);
    hide Bind, BoundWhere, BoundHaving;
  }

  /** After a HAVING with arguments no call adds arguments, and no other HAVING follows. */
  ghost predicate HavingComesLast<A>(calls: seq<Call<A>>) {
    forall i, j :: 0 <= i < j < |calls| && calls[i].Having? && calls[i].clause.args != [] ==>
      calls[j].Cond? && calls[j].clause.args == []
  }

  ghost predicate NoHavingArgs<A>(calls: seq<Call<A>>) {
    forall i :: 0 <= i < |calls| && calls[i].Having? ==> calls[i].clause.args == []
  }

  ghost predicate AllDifferent<A>(xs: seq<A>) {
    forall i, j :: 0 <= i < j < |xs| ==> xs[i] != xs[j]
  }

  function WantedArgs<A>(calls: seq<Call<A>>): seq<A> {
    Args(Conditions(calls)) + LastHaving(calls).args
  }

  lemma {:induction false} ArgsWithoutHaving<A>(calls: seq<Call<A>>)
    ensures |CallArgs(calls)| >= |Args(Conditions(calls))|
    ensures CallArgs(calls) == Args(Conditions(calls)) <==> NoHavingArgs(calls)
    ensures |CallArgs(calls)| == |Args(Conditions(calls))| <==> NoHavingArgs(calls)
    ensures NoHavingArgs(calls) ==> LastHaving(calls).args == []
  {
    if calls != [] {
      var front, c := calls[..|calls| - 1], calls[|calls| - 1];
      assert calls == front + [c];
      ArgsWithoutHaving(front);
      ConditionsSnoc(front, c);
      assert NoHavingArgs(calls) <==> NoHavingArgs(front) && (c.Having? ==> c.clause.args == []);
    }
  }

  lemma ComesLastSnoc<A>(calls: seq<Call<A>>, c: Call<A>)
    ensures HavingComesLast(calls + [c]) <==>
              HavingComesLast(calls) && (NoHavingArgs(calls) || (c.Cond? && c.clause.args == []))
    ensures NoHavingArgs(calls) ==> HavingComesLast(calls)
  {
    var all := calls + [c];
    assert forall i :: 0 <= i < |calls| ==> all[i] == calls[i];
    assert all[|calls|] == c;
  }

  /** The order of the calls is the order of the text exactly if the HAVING's arguments come last; for
      arguments that can be told apart. */
  lemma {:induction false} OrderIff<A>(calls: seq<Call<A>>)
    requires AllDifferent(CallArgs(calls))
    ensures CallArgs(calls) == WantedArgs(calls) <==> HavingComesLast(calls)
  {
    if calls != [] {
      var front, c := calls[..|calls| - 1], calls[|calls| - 1];
      assert calls == front + [c];
      ConditionsSnoc(front, c);
      ComesLastSnoc(front, c);
      ArgsWithoutHaving(front);
      var before, w, h := CallArgs(front), Args(Conditions(front)), LastHaving(front).args;
      assert CallArgs(calls) == before + c.clause.args;
      assert AllDifferent(before) by {
        assert forall i :: 0 <= i < |before| ==> before[i] == CallArgs(calls)[i];
      }
      OrderIff(front);
      if c.Having? {
        SameEnding(before, w, c.clause.args);
      } else if c.clause.args == [] {
        assert before + [] == before && w + [] == w;
      } else {
        CondAfterHaving(before, w, h, c.clause.args);
      }
    }
  }

  lemma SameEnding<A>(a: seq<A>, b: seq<A>, c: seq<A>)
    ensures a + c == b + c <==> a == b
  {
    if a + c == b + c {
      assert a == (a + c)[..|a|] && b == (b + c)[..|b|];
    }
  }

  /** A condition's arguments cannot be at the end and before the HAVING's at the same time. */
  lemma CondAfterHaving<A>(before: seq<A>, w: seq<A>, h: seq<A>, args: seq<A>)
    requires args != [] && AllDifferent(before + args)
    ensures before + args == w + args + h <==> h == [] && before == w
  {
    SameEnding(before, w, args);
    assert h == [] ==> w + args + h == w + args;
    assert (before + args)[|before + args| - 1] == args[|args| - 1];
    assert (w + args + h)[|w| + |args| - 1] == args[|args| - 1];
  }

  /** Every placeholder of the built text meets the argument it was written with. */
  ghost predicate Aligned<A>(f: Frame, calls: seq<Call<A>>)
    requires f.NoHoles() && AllFit(Conditions(calls)) && LastHaving(calls).Fits()
  {
    var text := QueryText(f, ClauseTexts(Conditions(calls)), LastHaving(calls).text);
    && Holes(text) == |CallArgs(calls)|
    && Bind(text, CallArgs(calls)) == Intended(f, Conditions(calls), LastHaving(calls))
  }

  /** Placeholder alignment of `QueryBuilder.Build`: if every clause has as many placeholders as
      arguments, then each placeholder of the built text meets its own argument exactly if the HAVING's
      arguments were given last. */
  lemma QueryAlignedIff<A>(f: Frame, calls: seq<Call<A>>)
    requires f.NoHoles() && CallsFit(calls) && AllDifferent(CallArgs(calls))
    ensures AllFit(Conditions(calls)) && LastHaving(calls).Fits()
    ensures Aligned(f, calls) <==> HavingComesLast(calls)
  {
    ConditionsFit(calls);
    TextWantsWhereThenHaving(f, Conditions(calls), LastHaving(calls));
    OrderIff(calls);
    hide Bind, Holes, Intended, QueryText, HavingComesLast;
    var text := QueryText(f, ClauseTexts(Conditions(calls)), LastHaving(calls).text);
    if Holes(text) == |CallArgs(calls)| && Bind(text, CallArgs(calls)) == Intended(f, Conditions(calls), LastHaving(calls)) {
      BindInjective(text, CallArgs(calls), WantedArgs(calls));
    }
  }

  /** One direction needs no distinct arguments. */
  lemma {:induction false} HavingLastInOrder<A>(calls: seq<Call<A>>)
    requires HavingComesLast(calls)
    ensures CallArgs(calls) == WantedArgs(calls)
  {
    if calls != [] {
      var front, c := calls[..|calls| - 1], calls[|calls| - 1];
      assert calls == front + [c];
      ConditionsSnoc(front, c);
      ComesLastSnoc(front, c);
      ArgsWithoutHaving(front);
      HavingLastInOrder(front);
      var w := Args(Conditions(front));
      assert w + [] == w;
    }
  }

  /** So a HAVING that comes last is always safe, whatever the arguments are. */
  lemma HavingLastAligned<A>(f: Frame, calls: seq<Call<A>>)
    requires f.NoHoles() && CallsFit(calls) && HavingComesLast(calls)
    ensures AllFit(Conditions(calls)) && LastHaving(calls).Fits()
    ensures Aligned(f, calls)
  {
    ConditionsFit(calls);
    TextWantsWhereThenHaving(f, Conditions(calls), LastHaving(calls));
    HavingLastInOrder(calls);
  }

  /** A query that goes wrong: the HAVING is given first, and the two arguments change places. */
  lemma HavingFirstMisaligned(f: Frame, calls: seq<Call<int>>)
    requires f == Frame("t", [], "", "", 0, 0)
    requires calls == [Call.Having(Clause("a = ?", [1])), Cond(Clause("b = ?", [2]))]
    ensures f.NoHoles() && CallsFit(calls) && AllFit(Conditions(calls)) && LastHaving(calls).Fits()
    ensures !Aligned(f, calls)
  {
    PlainFrame(f);
    hide Holes, Bind, Intended, QueryText, Aligned, f.NoHoles;
    TwoCallArgs(calls[0], calls[1]);
    assert !HavingComesLast(calls) by {
      assert calls[0].Having? && calls[1].clause.args != [];
    }
    hide Conditions, CallArgs, LastHaving, HavingComesLast;
    QueryAlignedIff(f, calls);
  }

  lemma PlainFrame(f: Frame)
    requires f == Frame("t", [], "", "", 0, 0)
    ensures f.NoHoles()
  {
    assert f.Head() == "SELECT " + "*" + " FROM " + "t";
    NoMark("SELECT ");
    NoMark("*");
    NoMark(" FROM ");
    NoMark("t");
    NoMark("");
    hide Holes;
    HolesConcat("SELECT ", "*");
    HolesConcat("SELECT " + "*", " FROM ");
    HolesConcat("SELECT " + "*" + " FROM ", "t");
  }

  lemma TwoCallArgs<A>(first: Call<A>, second: Call<A>)
    ensures CallArgs([first, second]) == first.clause.args + second.clause.args
  {
    assert [first, second][..1] == [first] && [first][..0] == [];
    assert CallArgs([first]) == [] + first.clause.args;
  }

  // ----- UPDATE -----

  function SetClauses<A>(sets: map<string, A>, order: seq<string>): seq<Clause<A>>
    requires forall i :: 0 <= i < |order| ==> order[i] in sets
  {
    if order == [] then [] else [Clause(order[0] + " = ?", [sets[order[0]]])] + SetClauses(sets, order[1..])
  }

  /** `order` lists the fields of `sets`, each once. */
  ghost predicate Lists<A>(sets: map<string, A>, order: seq<string>) {
    AllDifferent(order) && forall k :: k in sets <==> k in order
  }

  function UpdateText(table: string, sets: seq<string>, where_: seq<string>): string {
    "UPDATE " + table + " SET " + Join(sets, ", ") + WhereText(where_)
  }

  class UpdateBuilder<A> {
    var table: string
    var sets: map<string, A>
    var where_: seq<string>
    var args: seq<A>
    ghost var conditions: seq<Clause<A>>

    ghost predicate Valid()
      reads this
    {
      where_ == ClauseTexts(conditions) && args == Args(conditions)
    }

    constructor (table: string)
      ensures Valid() && this.table == table && sets == map[] && conditions == []
    {
      this.table := table;
      sets, where_, args, conditions := map[], [], [], [];
    }

    method Set(field: string, value: A)
      modifies this`sets
      ensures sets == old(sets)[field := value]
    {
      sets := sets[field := value];
    }

    method Where(condition: string, values: seq<A>)
      requires Valid()
      modifies this`where_, this`args, this`conditions
      ensures Valid() && conditions == old(conditions) + [Clause(condition, values)]
    {
      where_ := where_ + [condition];
      args := args + values;
      conditions := conditions + [Clause(condition, values)];
      TextsSnoc(old(conditions), Clause(condition, values));
    }

    /** The fields come in whatever order the map iteration takes. */
    method Build() returns (sql: string, values: seq<A>)
      requires Valid()
      ensures exists order :: Lists(sets, order)
                && sql == UpdateText(table, ClauseTexts(SetClauses(sets, order)), ClauseTexts(conditions))
                && values == Args(SetClauses(sets, order)) + Args(conditions)
    {
      var setStrs: seq<string> := [];
      values := [];
      ghost var order: seq<string> := [];
      var left := sets.Keys;
      while left != {}
        invariant left <= sets.Keys && AllDifferent(order)
        invariant forall k :: k in order <==> k in sets && k !in left
        invariant setStrs == ClauseTexts(SetClauses(sets, order))
        invariant values == Args(SetClauses(sets, order))
        decreases left
      {
        var k :| k in left;
        SetClausesSnoc(sets, order, k);
        setStrs := setStrs + [k + " = ?"];
        values := values + [sets[k]];
        order := order + [k];
        left := left - {k};
      }
      sql := "UPDATE " + table + " SET " + Join(setStrs, ", ");
      if |where_| > 0 {
        sql := sql + (" WHERE " + Join(where_, " AND "));
        values := values + args;
      } else {
        assert conditions == [];
        assert values + [] == values && sql + "" == sql;
      }
      assert Lists(sets, order);
    }
  }

  lemma SetClausesSnoc<A>(sets: map<string, A>, order: seq<string>, k: string)
    requires k in sets && forall i :: 0 <= i < |order| ==> order[i] in sets
    ensures SetClauses(sets, order + [k]) == SetClauses(sets, order) + [Clause(k + " = ?", [sets[k]])]
    ensures ClauseTexts(SetClauses(sets, order + [k])) == ClauseTexts(SetClauses(sets, order)) + [k + " = ?"]
    ensures Args(SetClauses(sets, order + [k])) == Args(SetClauses(sets, order)) + [sets[k]]
  {
    SetClausesConcat(sets, order, k);
    TextsSnoc(SetClauses(sets, order), Clause(k + " = ?", [sets[k]]));
  }

  lemma {:induction false} SetClausesConcat<A>(sets: map<string, A>, order: seq<string>, k: string)
    requires k in sets && forall i :: 0 <= i < |order| ==> order[i] in sets
    ensures SetClauses(sets, order + [k]) == SetClauses(sets, order) + [Clause(k + " = ?", [sets[k]])]
  {
    if order == [] {
      assert order + [k] == [k];
    } else {
      assert (order + [k])[1..] == order[1..] + [k];
      SetClausesConcat(sets, order[1..], k);
    }
  }

  lemma {:induction false} SetClausesFit<A>(sets: map<string, A>, order: seq<string>)
    requires forall i :: 0 <= i < |order| ==> order[i] in sets
    requires forall k :: k in sets ==> Holes(k) == 0
    ensures AllFit(SetClauses(sets, order))
  {
    if order != [] {
      assert Holes(" = ?") == 1;
      HolesConcat(order[0], " = ?");
      SetClausesFit(sets, order[1..]);
    }
  }

  /** Placeholder alignment of `UpdateBuilder.Build`: for every iteration order of the fields and
      however `Set` and `Where` were interleaved, each field meets its own value and each condition its
      own arguments. */
  lemma UpdateAligned<A>(table: string, sets: map<string, A>, order: seq<string>, conditions: seq<Clause<A>>)
    requires Lists(sets, order) && AllFit(conditions)
    requires Holes(table) == 0 && forall k :: k in sets ==> Holes(k) == 0
    ensures AllFit(SetClauses(sets, order))
    ensures var text := UpdateText(table, ClauseTexts(SetClauses(sets, order)), ClauseTexts(conditions));
            var values := Args(SetClauses(sets, order)) + Args(conditions);
            && Holes("UPDATE " + table + " SET ") == 0 == Holes(", ")
            && Holes(text) == |values|
            && Bind(text, values)
               == Bind("UPDATE " + table + " SET ", []) + BoundJoin(SetClauses(sets, order), ", ")
                  + BoundWhere(conditions)
  {
    SetClausesFit(sets, order);
    var s := SetClauses(sets, order);
    var head := "UPDATE " + table + " SET ";
    NoMark("UPDATE ");
    NoMark(" SET ");
    NoMark(", ");
    hide Bind, Holes, WhereText, BoundJoin, BoundWhere, SetClauses, Lists, Join;
    HolesConcat("UPDATE ", table);
    HolesConcat("UPDATE " + table, " SET ");
    BindJoin(s, ", ");
    BindWhere(conditions);
    var none: seq<A> := [];
    BindConcat(head, none, Join(ClauseTexts(s), ", "), Args(s));
    assert none + Args(s) == Args(s);
    BindConcat(head + Join(ClauseTexts(s), ", "), Args(s), WhereText(ClauseTexts(conditions)), Args(conditions));
  }

  // ----- INSERT -----

  function RowText(n: nat): string {
    "(" + Join(Marks(n), ",") + ")"
  }

  function Rows<A>(values: seq<seq<A>>): seq<Clause<A>> {
    if values == [] then [] else [Clause(RowText(|values[0]|), values[0])] + Rows(values[1..])
  }

  function InsertHead(table: string, fields: seq<string>): string {
    "INSERT INTO " + table + (if fields == [] then "" else " (" + Join(fields, ", ") + ")") + " VALUES "
  }

  class InsertBuilder<A> {
    var table: string
    var fields: seq<string>
    var values: seq<seq<A>>

    constructor (table: string)
      ensures this.table == table && fields == [] && values == []
    {
      this.table := table;
      fields, values := [], [];
    }

    method Fields(fields: seq<string>)
      modifies this`fields
      ensures this.fields == fields
    {
      this.fields := fields;
    }

    method Values(row: seq<A>)
      modifies this`values
      ensures values == old(values) + [row]
    {
      values := values + [row];
    }

    method Build() returns (sql: string, args: seq<A>)
      ensures sql == InsertHead(table, fields) + Join(ClauseTexts(Rows(values)), ",")
      ensures args == Args(Rows(values))
    {
      sql := "INSERT INTO ";
      sql := sql + table;
      if |fields| > 0 {
        sql := sql + (" (" + Join(fields, ", ") + ")");
      }
      assert sql == "INSERT INTO " + table + (if fields == [] then "" else " (" + Join(fields, ", ") + ")");
      sql := sql + " VALUES ";
      var placeholders: seq<string> := [];
      args := [];
      for i := 0 to |values|
        invariant placeholders == ClauseTexts(Rows(values[..i]))
        invariant args == Args(Rows(values[..i]))
      {
        var ph: seq<string> := [];
        for j := 0 to |values[i]|
          invariant ph == Marks(j)
        {
          ph := ph + ["?"];
          MarksSnoc(j);
        }
        RowsSnoc(values[..i], values[i]);
        assert values[..i + 1] == values[..i] + [values[i]];
        placeholders := placeholders + ["(" + Join(ph, ",") + ")"];
        args := args + values[i];
      }
      assert values[..|values|] == values;
      sql := sql + Join(placeholders, ",");
    }
  }

  lemma RowsSnoc<A>(values: seq<seq<A>>, row: seq<A>)
    ensures ClauseTexts(Rows(values + [row])) == ClauseTexts(Rows(values)) + [RowText(|row|)]
    ensures Args(Rows(values + [row])) == Args(Rows(values)) + row
  {
    RowsConcat(values, row);
    TextsSnoc(Rows(values), Clause(RowText(|row|), row));
  }

  lemma {:induction false} RowsConcat<A>(values: seq<seq<A>>, row: seq<A>)
    ensures Rows(values + [row]) == Rows(values) + [Clause(RowText(|row|), row)]
  {
    if values == [] {
      assert values + [row] == [row];
    } else {
      assert (values + [row])[1..] == values[1..] + [row];
      RowsConcat(values[1..], row);
    }
  }

  lemma {:induction false} RowsFit<A>(values: seq<seq<A>>)
    ensures AllFit(Rows(values))
  {
    if values != [] {
      var row := values[0];
      MarksHoles(row);
      InParentheses(Join(Marks(|row|), ","), row);
      RowsFit(values[1..]);
    }
  }

  lemma InParentheses<A>(text: string, args: seq<A>)
    requires Holes(text) == |args|
    ensures Holes("(" + text + ")") == |args|
    ensures Bind("(" + text + ")", args) == [Lit('(')] + Bind(text, args) + [Lit(')')]
  {
    var none: seq<A> := [];
    assert Holes("(") == 0 && Holes(")") == 0;
    assert Bind("(", none) == [Lit('(')] && Bind(")", none) == [Lit(')')];
    hide Bind, Holes;
    BindConcat("(", none, text, args);
    assert none + args == args && args + none == args;
    BindConcat("(" + text, args, ")", none);
  }

  /** What one row means: its values in parentheses, in order. */
  lemma RowMeaning<A>(row: seq<A>)
    ensures Holes(RowText(|row|)) == |row| && AllFit(Single(row)) && Holes(",") == 0
    ensures Bind(RowText(|row|), row) == [Lit('(')] + BoundJoin(Single(row), ",") + [Lit(')')]
  {
    SingleFits(row);
    assert Holes(",") == 0;
    hide Bind, Holes, BoundJoin, Single, Join, Marks, ClauseTexts, Args;
    BindJoin(Single(row), ",");
    InParentheses(Join(Marks(|row|), ","), row);
  }

  /** Placeholder alignment of `InsertBuilder.Build`: rows of any lengths, each meeting its own values. */
  lemma InsertAligned<A>(head: string, values: seq<seq<A>>)
    requires Holes(head) == 0
    ensures AllFit(Rows(values))
    ensures var text := head + Join(ClauseTexts(Rows(values)), ",");
            && Holes(text) == |Args(Rows(values))|
            && Bind(text, Args(Rows(values))) == Bind(head, []) + BoundJoin(Rows(values), ",")
  {
    RowsFit(values);
    assert Holes(",") == 0;
    BindJoin(Rows(values), ",");
    var none: seq<A> := [];
    BindConcat(head, none, Join(ClauseTexts(Rows(values)), ","), Args(Rows(values)));
    assert none + Args(Rows(values)) == Args(Rows(values));
  }
}
