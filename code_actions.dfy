/** The action-menu composer of the explorer (`ActionMenuCodeActionProvider`):
    from the actions registered for the current source, the most-recently-used
    list and the reverse key mappings it builds the ranked list of
    `explorer.doCodeAction` commands offered in the code-action menu. */
module CodeActions {
  import opened Common

  /** The action that opens the menu itself; it is never offered in the menu. */
  const ActionMenuName: string := "actionMenu"
  /** The command every menu entry invokes. */
  const DoCodeAction: string := "explorer.doCodeAction"

  /** A normalised sub-menu of an action: its label and an opaque handle on
      its asynchronous argument producer (`menu.actionArgs`). */
  datatype Menu = Menu(args: string, actionArgs: nat)

  /** One entry of the source's action registry: the action's name and, when
      the action declares sub-menus, their normalised form. */
  datatype Registered = Registered(name: string, menus: Option<seq<Menu>>)

  /** Reverse key mapping of one action name: its normal- and visual-mode keys. */
  datatype KeyBinding = KeyBinding(nmap: Option<string>, vmap: Option<string>)

  /** The third command argument: the producer of the action's arguments. The
      base entry carries `async () => []`; a sub-menu entry forwards to its menu. */
  datatype ArgsProducer = NoArgs | MenuArgs(menu: Menu)

  /** `[fullActionName, actionName, producer]`. */
  datatype CommandArgs = CommandArgs(fullName: string, actionName: string, producer: ArgsProducer)

  /** One menu entry, as handed to the editor. */
  datatype Command = Command(title: string, name: string, command: string, arguments: CommandArgs, score: int)

  /** What the composer reads from the current source: the registered actions
      (in registry order), the reverse key mappings of the source type, and the
      most-recently-used list of action names. */
  datatype Source = Source(registered: seq<Registered>, reverseMappings: map<string, KeyBinding>, mru: seq<string>)

  /** The current explorer, and the source it is showing, if any. */
  datatype Explorer = Explorer(currentSource: Option<Source>)

  // ---------------------------------------------------------------------------
  // Scoring by recency

  /** Rank of `key` in the most-recently-used list: `|list|` minus the position
      of its first occurrence, or -1 when it is absent. */
  function Score(list: seq<string>, key: string): (r: int)
    ensures r == -1 <==> key !in list
    ensures key in list ==> 1 <= r <= |list| && list[|list| - r] == key && key !in list[..|list| - r]
  {
    var idx := IndexOf(list, key);
    if idx == -1 then -1 else |list| - idx
  }

  /** A key whose first occurrence comes earlier in the list (more recently
      used) scores strictly higher than one that first occurs later, and every
      present key outranks every absent key. */
  lemma ScoreOrder(list: seq<string>, i: nat, j: nat, absent: string)
    requires i < j < |list|
    requires list[j] !in list[..j]
    requires absent !in list
    ensures Score(list, list[i]) > Score(list, list[j]) > Score(list, absent)
  {
    IndexOfBefore(list, i);
    IndexOfBefore(list, j);
  }

  // ---------------------------------------------------------------------------
  // Ordering actions by name

  /** Ordinal (code-point) lexicographic order on names; it stands for
      `localeCompare`, whose collation is not modelled. */
  predicate NameLe(a: string, b: string)
  {
    if a == [] then true
    else if b == [] then false
    else if a[0] != b[0] then a[0] < b[0]
    else NameLe(a[1..], b[1..])
  }

  /** Any two names are comparable. */
  lemma {:induction false} NameLeTotal(a: string, b: string)
    ensures NameLe(a, b) || NameLe(b, a)
  {
    if a != [] && b != [] && a[0] == b[0] {
      NameLeTotal(a[1..], b[1..]);
    }
  }

  /** Two names each at most the other are the same name. */
  lemma {:induction false} NameLeAntisymmetric(a: string, b: string)
    requires NameLe(a, b) && NameLe(b, a)
    ensures a == b
  {
    if a != [] && b != [] {
      NameLeAntisymmetric(a[1..], b[1..]);
      assert a == [a[0]] + a[1..];
      assert b == [b[0]] + b[1..];
    }
  }

  /** Name order is transitive. */
  lemma {:induction false} NameLeTransitive(a: string, b: string, c: string)
    requires NameLe(a, b) && NameLe(b, c)
    ensures NameLe(a, c)
  {
    if a != [] && b != [] && c != [] && a[0] == b[0] == c[0] {
      NameLeTransitive(a[1..], b[1..], c[1..]);
    }
  }

  /** Every action comes no later in name order than every action after it. */
  ghost predicate SortedByName(s: seq<Registered>)
  {
    forall i, j :: 0 <= i < j < |s| ==> NameLe(s[i].name, s[j].name)
  }

  /** Inserts `x` before the first action whose name is not below it. */
  function InsertByName(x: Registered, s: seq<Registered>): (r: seq<Registered>)
    requires SortedByName(s)
    ensures SortedByName(r)
    ensures multiset(r) == multiset(s) + multiset{x}
  {
    if s == [] || NameLe(x.name, s[0].name) then
      assert forall k | 0 <= k < |s| :: NameLe(x.name, s[k].name) by {
        forall k | 0 <= k < |s| ensures NameLe(x.name, s[k].name) {
          if k > 0 { NameLeTransitive(x.name, s[0].name, s[k].name); }
        }
      }
      [x] + s
    else
      var rest := InsertByName(x, s[1..]);
      NameLeTotal(x.name, s[0].name);
      HeadBelowInserted(x, s, rest);
      ConsSortedByName(s[0], rest);
      assert s == [s[0]] + s[1..];
      [s[0]] + rest
  }

  /** A name-sorted list stays sorted behind a head that is at most all of it. */
  lemma ConsSortedByName(h: Registered, rest: seq<Registered>)
    requires SortedByName(rest)
    requires forall k :: 0 <= k < |rest| ==> NameLe(h.name, rest[k].name)
    ensures SortedByName([h] + rest)
  {
    forall i, j | 0 <= i < j < |[h] + rest|
      ensures NameLe(([h] + rest)[i].name, ([h] + rest)[j].name)
    {
      if i > 0 { assert ([h] + rest)[i] == rest[i - 1]; }
      assert ([h] + rest)[j] == rest[j - 1];
    }
  }

  /** The head of a sorted list that is at most `x` is at most every element of
      `x` inserted into the tail. */
  lemma HeadBelowInserted(x: Registered, s: seq<Registered>, rest: seq<Registered>)
    requires s != [] && SortedByName(s) && NameLe(s[0].name, x.name)
    requires multiset(rest) == multiset(s[1..]) + multiset{x}
    ensures forall k :: 0 <= k < |rest| ==> NameLe(s[0].name, rest[k].name)
  {
    forall k | 0 <= k < |rest|
      ensures NameLe(s[0].name, rest[k].name)
    {
      assert rest[k] in multiset(rest);
      if rest[k] != x {
        assert rest[k] in multiset(s[1..]);
        var m :| 0 <= m < |s[1..]| && s[1..][m] == rest[k];
        assert s[m + 1] == rest[k];
      }
    }
  }

  /** `Array.prototype.sort` by name: a stable sort, here an insertion sort
      whose result is ordered by name and is a permutation of its input. */
  function SortByName(s: seq<Registered>): (r: seq<Registered>)
    ensures SortedByName(r)
    ensures multiset(r) == multiset(s)
  {
    if s == [] then []
    else
      assert s == [s[0]] + s[1..];
      InsertByName(s[0], SortByName(s[1..]))
  }

  /** Sorting a list that is already ordered by name leaves it as it is. */
  lemma {:induction false} SortByNameSorted(s: seq<Registered>)
    requires SortedByName(s)
    ensures SortByName(s) == s
  {
    if s != [] {
      assert SortedByName(s[1..]);
      SortByNameSorted(s[1..]);
    }
  }

  /** The composer sorts by name twice; the second sort changes nothing. */
  lemma SortByNameIdempotent(s: seq<Registered>)
    ensures SortByName(SortByName(s)) == SortByName(s)
  {
    SortByNameSorted(SortByName(s));
  }

  // ---------------------------------------------------------------------------
  // Building the entries

  /** Every registered action except the menu action itself. */
  function WithoutActionMenu(s: seq<Registered>): (r: seq<Registered>)
    ensures forall a :: a in r <==> a in s && a.name != ActionMenuName
  {
    if s == [] then []
    else if s[0].name == ActionMenuName then WithoutActionMenu(s[1..])
    else [s[0]] + WithoutActionMenu(s[1..])
  }

  /** The key shown in a title: the visual-mode key if there is one, else the
      normal-mode key, and the empty string when the name has no reverse
      mapping. A mapping with neither key prints as JavaScript's `undefined`. */
  function BoundKey(reverse: map<string, KeyBinding>, name: string): string
  {
    if name !in reverse then ""
    else match reverse[name]
      case KeyBinding(_, Some(v)) => v
      case KeyBinding(Some(n), None) => n
      case KeyBinding(None, None) => "undefined"
  }

  /** The title of an entry: the name followed by its key in brackets. */
  function Title(name: string, key: string): string
  {
    name + " [" + key + "]"
  }

  /** The identifier of a sub-menu entry: `action:args`. */
  function FullActionName(actionName: string, menu: Menu): string
  {
    actionName + ":" + menu.args
  }

  function BaseCommand(src: Source, actionName: string): Command
  {
    Command(Title(actionName, BoundKey(src.reverseMappings, actionName)), actionName, DoCodeAction,
            CommandArgs(actionName, actionName, NoArgs), Score(src.mru, actionName))
  }

  function MenuCommand(src: Source, actionName: string, menu: Menu): Command
  {
    var full := FullActionName(actionName, menu);
    Command(Title(full, BoundKey(src.reverseMappings, full)), full, DoCodeAction,
            CommandArgs(full, actionName, MenuArgs(menu)), Score(src.mru, full))
  }

  /** One sub-menu entry per normalised menu, in declaration order. */
  function MenuCommands(src: Source, actionName: string, menus: seq<Menu>): (r: seq<Command>)
    ensures |r| == |menus|
    ensures forall k :: 0 <= k < |menus| ==> r[k] == MenuCommand(src, actionName, menus[k])
  {
    if menus == [] then [] else [MenuCommand(src, actionName, menus[0])] + MenuCommands(src, actionName, menus[1..])
  }

  /** The entries of one action: its base entry, then its sub-menu entries. */
  function CommandsOf(src: Source, a: Registered): seq<Command>
  {
    [BaseCommand(src, a.name)] + (if a.menus.Some? then MenuCommands(src, a.name, a.menus.value) else [])
  }

  /** The entries of every action, action after action (`map` then `flat`). */
  function Flatten(src: Source, s: seq<Registered>): seq<Command>
  {
    if s == [] then [] else CommandsOf(src, s[0]) + Flatten(src, s[1..])
  }

  /** Number of entries an action list yields: one per action plus one per menu. */
  function EntryCount(s: seq<Registered>): nat
  {
    if s == [] then 0 else 1 + (if s[0].menus.Some? then |s[0].menus.value| else 0) + EntryCount(s[1..])
  }

  // ---------------------------------------------------------------------------
  // Ranking

  /** Scores never increase along the list. */
  ghost predicate SortedByScore(s: seq<Command>)
  {
    forall i, j :: 0 <= i < j < |s| ==> s[i].score >= s[j].score
  }

  /** Inserts `x` before the first entry that does not score above it, so that
      it stays ahead of the entries with its own score that came after it. */
  function InsertByScore(x: Command, s: seq<Command>): (r: seq<Command>)
    requires SortedByScore(s)
    ensures SortedByScore(r)
    ensures multiset(r) == multiset(s) + multiset{x}
  {
    if s == [] || s[0].score <= x.score then
      [x] + s
    else
      var rest := InsertByScore(x, s[1..]);
      HeadAboveInserted(x, s, rest);
      ConsSortedByScore(s[0], rest);
      assert s == [s[0]] + s[1..];
      [s[0]] + rest
  }

  /** A score-sorted list stays sorted behind a head that scores at least as
      high as all of it. */
  lemma ConsSortedByScore(h: Command, rest: seq<Command>)
    requires SortedByScore(rest)
    requires forall k :: 0 <= k < |rest| ==> h.score >= rest[k].score
    ensures SortedByScore([h] + rest)
  {
    forall i, j | 0 <= i < j < |[h] + rest|
      ensures ([h] + rest)[i].score >= ([h] + rest)[j].score
    {
      if i > 0 { assert ([h] + rest)[i] == rest[i - 1]; }
      assert ([h] + rest)[j] == rest[j - 1];
    }
  }

  /** The head of a sorted list that scores above `x` scores at least as high
      as every element of `x` inserted into the tail. */
  lemma HeadAboveInserted(x: Command, s: seq<Command>, rest: seq<Command>)
    requires s != [] && SortedByScore(s) && s[0].score > x.score
    requires multiset(rest) == multiset(s[1..]) + multiset{x}
    ensures forall k :: 0 <= k < |rest| ==> s[0].score >= rest[k].score
  {
    forall k | 0 <= k < |rest|
      ensures s[0].score >= rest[k].score
    {
      assert rest[k] in multiset(rest);
      if rest[k] != x {
        assert rest[k] in multiset(s[1..]);
        var m :| 0 <= m < |s[1..]| && s[1..][m] == rest[k];
        assert s[m + 1] == rest[k];
      }
    }
  }

  /** `sort((a, b) => b.score - a.score)`: a stable sort by descending score,
      here an insertion sort; ordered by score and a permutation of its input. */
  function SortByScore(s: seq<Command>): (r: seq<Command>)
    ensures SortedByScore(r)
    ensures multiset(r) == multiset(s)
  {
    if s == [] then []
    else
      assert s == [s[0]] + s[1..];
      InsertByScore(s[0], SortByScore(s[1..]))
  }

  /** The entries of `s` that have score `sc`, in their order in `s`. */
  function WithScore(s: seq<Command>, sc: int): seq<Command>
  {
    if s == [] then [] else (if s[0].score == sc then [s[0]] else []) + WithScore(s[1..], sc)
  }

  lemma SortedByScoreTail(s: seq<Command>)
    requires s != [] && SortedByScore(s)
    ensures SortedByScore(s[1..])
  {
    forall i, j | 0 <= i < j < |s[1..]|
      ensures s[1..][i].score >= s[1..][j].score
    {
      assert s[1..][i] == s[i + 1] && s[1..][j] == s[j + 1];
    }
  }

  /** The entries of score `sc` in `[c] + s`: `c` if it has that score, then those of `s`. */
  lemma WithScoreCons(c: Command, s: seq<Command>, sc: int)
    ensures WithScore([c] + s, sc) == (if c.score == sc then [c] else []) + WithScore(s, sc)
  {
    assert ([c] + s)[1..] == s;
  }

  lemma {:induction false} InsertByScoreStable(x: Command, s: seq<Command>, sc: int)
    requires SortedByScore(s)
    ensures WithScore(InsertByScore(x, s), sc) == (if x.score == sc then [x] else []) + WithScore(s, sc)
  {
    if s == [] || s[0].score <= x.score {
      WithScoreCons(x, s, sc);
    } else {
      SortedByScoreTail(s);
      var r := InsertByScore(x, s[1..]);
      assert InsertByScore(x, s) == [s[0]] + r;
      InsertByScoreStable(x, s[1..], sc);
      WithScoreCons(s[0], r, sc);
      assert s == [s[0]] + s[1..];
      WithScoreCons(s[0], s[1..], sc);
      var px := if x.score == sc then [x] else [];
      var p0 := if s[0].score == sc then [s[0]] else [];
      assert px == [] || p0 == [];
      assert p0 + (px + WithScore(s[1..], sc)) == px + (p0 + WithScore(s[1..], sc));
    }
  }

  /** The sort is stable: the entries of any one score keep their relative order. */
  lemma {:induction false} SortByScoreStable(s: seq<Command>, sc: int)
    ensures WithScore(SortByScore(s), sc) == WithScore(s, sc)
  {
    if s != [] {
      SortByScoreStable(s[1..], sc);
      InsertByScoreStable(s[0], SortByScore(s[1..]), sc);
    }
  }

  // ---------------------------------------------------------------------------
  // The composer

  /** `provideCodeActions`: no explorer or no current source gives no entries;
      otherwise drop `actionMenu`, sort by name (twice), emit each action's
      entries and sort them by descending score. */
  function ProvideCodeActions(explorer: Option<Explorer>): seq<Command>
  {
    if explorer.None? || explorer.value.currentSource.None? then []
    else
      var src := explorer.value.currentSource.value;
      SortByScore(Flatten(src, ByName(src)))
  }

  /** The actions in the order their entries are emitted. */
  function ByName(src: Source): seq<Registered>
  {
    SortByName(SortByName(WithoutActionMenu(src.registered)))
  }

  /** Without an explorer, or without a source in it, the menu is empty. */
  lemma NoContextNoEntries(explorer: Option<Explorer>)
    requires explorer.None? || explorer.value.currentSource.None?
    ensures ProvideCodeActions(explorer) == []
  {
  }

  /** The fields every entry shares: the command it invokes, its title (its
      name and bound key) and its score (the recency of its name). */
  ghost predicate EntryFields(src: Source, c: Command)
  {
    && c.command == DoCodeAction
    && c.title == c.name + " [" + BoundKey(src.reverseMappings, c.name) + "]"
    && c.score == Score(src.mru, c.name)
  }

  /** `c` is the base entry of action `a`: arguments `[name, name, () => []]`. */
  ghost predicate IsBaseEntry(src: Source, a: Registered, c: Command)
  {
    c.name == a.name && c.arguments == CommandArgs(a.name, a.name, NoArgs) && EntryFields(src, c)
  }

  /** `c` is the entry of menu `m` of action `a`: named `action:args`, with
      arguments `[fullName, actionName, menu producer]`. */
  ghost predicate IsMenuEntry(src: Source, a: Registered, m: Menu, c: Command)
  {
    c.name == a.name + ":" + m.args && c.arguments == CommandArgs(c.name, a.name, MenuArgs(m)) && EntryFields(src, c)
  }

  /** `c` is one of the entries action `a` yields. */
  ghost predicate IsEntryOf(src: Source, a: Registered, c: Command)
  {
    IsBaseEntry(src, a, c) || (a.menus.Some? && exists m :: m in a.menus.value && IsMenuEntry(src, a, m, c))
  }

  lemma CommandsOfShape(src: Source, a: Registered, c: Command)
    requires c in CommandsOf(src, a)
    ensures IsEntryOf(src, a, c)
  {
    if c != BaseCommand(src, a.name) {
      var ms := a.menus.value;
      var cs := MenuCommands(src, a.name, ms);
      assert c in cs;
      var k :| 0 <= k < |cs| && cs[k] == c;
      assert ms[k] in ms && IsMenuEntry(src, a, ms[k], c);
    }
  }

  lemma {:induction false} FlattenMembers(src: Source, s: seq<Registered>, c: Command)
    ensures c in Flatten(src, s) <==> exists a :: a in s && c in CommandsOf(src, a)
  {
    if s != [] {
      FlattenMembers(src, s[1..], c);
      if c in CommandsOf(src, s[0]) {
        assert s[0] in s;
      }
      forall a | a in s && c in CommandsOf(src, a) && a != s[0]
        ensures a in s[1..]
      {
        assert s == [s[0]] + s[1..];
      }
    }
  }

  /** The actions whose entries are emitted are exactly the registered actions
      other than `actionMenu`. */
  lemma ByNameMembers(src: Source, a: Registered)
    ensures a in ByName(src) <==> a in src.registered && a.name != ActionMenuName
  {
    var w := WithoutActionMenu(src.registered);
    calc {
      a in ByName(src);
      a in multiset(ByName(src));
      a in multiset(w);
      a in w;
    }
  }

  /** Every entry of the menu is the base entry or a sub-menu entry of some
      registered action other than `actionMenu`, with the title, command,
      arguments and score the composer gives it. */
  lemma EntriesComeFromRegistry(src: Source, c: Command)
    requires c in ProvideCodeActions(Some(Explorer(Some(src))))
    ensures exists a :: a in src.registered && a.name != ActionMenuName && IsEntryOf(src, a, c)
  {
    var flat := Flatten(src, ByName(src));
    assert c in multiset(SortByScore(flat));
    assert c in flat;
    FlattenMembers(src, ByName(src), c);
    var a :| a in ByName(src) && c in CommandsOf(src, a);
    ByNameMembers(src, a);
    CommandsOfShape(src, a, c);
  }

  /** An entry of an action that is emitted ends up in the menu. */
  lemma OfferedIfEmitted(src: Source, a: Registered, c: Command)
    requires a in ByName(src) && c in CommandsOf(src, a)
    ensures c in ProvideCodeActions(Some(Explorer(Some(src))))
  {
    var flat := Flatten(src, ByName(src));
    FlattenMembers(src, ByName(src), c);
    assert c in multiset(flat);
    assert c in multiset(SortByScore(flat));
  }

  /** Conversely, every registered action other than `actionMenu` is offered:
      its base entry and the entry of each of its menus are in the menu. */
  lemma RegistryEntriesOffered(src: Source, a: Registered)
    requires a in src.registered && a.name != ActionMenuName
    ensures BaseCommand(src, a.name) in ProvideCodeActions(Some(Explorer(Some(src))))
    ensures a.menus.Some? ==> forall m :: m in a.menus.value ==>
              MenuCommand(src, a.name, m) in ProvideCodeActions(Some(Explorer(Some(src))))
  {
    ByNameMembers(src, a);
    OfferedIfEmitted(src, a, BaseCommand(src, a.name));
    if a.menus.Some? {
      forall m | m in a.menus.value
        ensures MenuCommand(src, a.name, m) in ProvideCodeActions(Some(Explorer(Some(src))))
      {
        var ms := a.menus.value;
        var k :| 0 <= k < |ms| && ms[k] == m;
        assert MenuCommands(src, a.name, ms)[k] == MenuCommand(src, a.name, m);
        assert MenuCommand(src, a.name, m) in CommandsOf(src, a);
        OfferedIfEmitted(src, a, MenuCommand(src, a.name, m));
      }
    }
  }

  /** A sub-menu identifier contains a colon, so it is never `actionMenu`. */
  lemma FullNameNotActionMenu(actionName: string, m: Menu)
    ensures FullActionName(actionName, m) != ActionMenuName
  {
    assert FullActionName(actionName, m)[|actionName|] == ':';
  }

  /** No entry is the menu action itself, whatever the registry holds: base
      entries of `actionMenu` are filtered out, and a sub-menu entry's name
      contains a colon, which `actionMenu` does not. */
  lemma NoActionMenuEntry(explorer: Option<Explorer>, c: Command)
    requires c in ProvideCodeActions(explorer)
    ensures c.name != ActionMenuName
  {
    var src := explorer.value.currentSource.value;
    EntriesComeFromRegistry(src, c);
    var a :| a in src.registered && a.name != ActionMenuName && IsEntryOf(src, a, c);
    if !IsBaseEntry(src, a, c) {
      var m :| m in a.menus.value && IsMenuEntry(src, a, m, c);
      FullNameNotActionMenu(a.name, m);
    }
  }

  lemma {:induction false} EntryCountInsert(x: Registered, s: seq<Registered>)
    requires SortedByName(s)
    ensures EntryCount(InsertByName(x, s)) == EntryCount([x]) + EntryCount(s)
  {
    if s != [] && !NameLe(x.name, s[0].name) {
      EntryCountInsert(x, s[1..]);
      assert ([s[0]] + InsertByName(x, s[1..]))[1..] == InsertByName(x, s[1..]);
    }
  }

  lemma {:induction false} EntryCountSort(s: seq<Registered>)
    ensures EntryCount(SortByName(s)) == EntryCount(s)
  {
    if s != [] {
      EntryCountSort(s[1..]);
      EntryCountInsert(s[0], SortByName(s[1..]));
    }
  }

  lemma {:induction false} FlattenLength(src: Source, s: seq<Registered>)
    ensures |Flatten(src, s)| == EntryCount(s)
  {
    if s != [] {
      FlattenLength(src, s[1..]);
    }
  }

  /** The menu has one entry per action other than `actionMenu` plus one per
      normalised menu of such an action. */
  lemma EntryCountOfMenu(src: Source)
    ensures |ProvideCodeActions(Some(Explorer(Some(src))))| == EntryCount(WithoutActionMenu(src.registered))
  {
    var w := WithoutActionMenu(src.registered);
    var flat := Flatten(src, ByName(src));
    assert |SortByScore(flat)| == |multiset(SortByScore(flat))| == |flat|;
    FlattenLength(src, ByName(src));
    EntryCountSort(w);
    EntryCountSort(SortByName(w));
  }

  /** The menu is ordered by descending score, is a permutation of the entries
      emitted in name order, and among entries of equal score keeps that order
      (name order of the actions, each base entry before its menu entries). */
  lemma MenuRanking(src: Source, sc: int)
    ensures SortedByScore(ProvideCodeActions(Some(Explorer(Some(src)))))
    ensures multiset(ProvideCodeActions(Some(Explorer(Some(src))))) == multiset(Flatten(src, ByName(src)))
    ensures WithScore(ProvideCodeActions(Some(Explorer(Some(src)))), sc) == WithScore(Flatten(src, ByName(src)), sc)
    ensures SortedByName(ByName(src))
  {
    SortByScoreStable(Flatten(src, ByName(src)), sc);
  }

  lemma SortTwoByName(y: Registered, z: Registered)
    requires !NameLe(y.name, z.name)
    ensures SortByName([y, z]) == [z, y]
  {
    assert [y, z][1..] == [z] && [z][1..] == [];
    assert SortByName([z]) == [z];
    assert InsertByName(y, [z]) == [z] + InsertByName(y, []);
  }

  lemma InsertSecondByName(x: Registered, z: Registered, y: Registered)
    requires !NameLe(x.name, z.name) && NameLe(x.name, y.name)
    requires SortedByName([z, y])
    ensures InsertByName(x, [z, y]) == [z, x, y]
  {
    assert [z, y][1..] == [y];
  }

  lemma SortThreeByName(x: Registered, y: Registered, z: Registered)
    requires NameLe(x.name, y.name) && !NameLe(x.name, z.name) && !NameLe(y.name, z.name)
    ensures SortByName([x, y, z]) == [z, x, y]
  {
    assert [x, y, z][1..] == [y, z];
    SortTwoByName(y, z);
    InsertSecondByName(x, z, y);
  }

  lemma SortTwoByScore(q: Command, r: Command)
    requires q.score < r.score
    ensures SortByScore([q, r]) == [r, q]
  {
    assert [q, r][1..] == [r] && [r][1..] == [];
    assert SortByScore([r]) == [r];
    assert InsertByScore(q, [r]) == [r] + InsertByScore(q, []);
  }

  lemma InsertSecondByScore(p: Command, r: Command, q: Command)
    requires p.score == q.score < r.score
    ensures InsertByScore(p, [r, q]) == [r, p, q]
  {
    assert [r, q][1..] == [q];
  }

  lemma RankThree(p: Command, q: Command, r: Command)
    requires p.score == q.score < r.score
    ensures SortByScore([p, q, r]) == [r, p, q]
  {
    assert [p, q, r][1..] == [q, r];
    SortTwoByScore(q, r);
    InsertSecondByScore(p, r, q);
  }

  lemma MenuOfSource(src: Source)
    ensures ProvideCodeActions(Some(Explorer(Some(src)))) == SortByScore(Flatten(src, ByName(src)))
  {
  }

  lemma FlattenThree(src: Source, x: Registered, y: Registered, z: Registered)
    requires x.menus.None? && y.menus.None? && z.menus.None?
    ensures Flatten(src, [x, y, z]) == [BaseCommand(src, x.name), BaseCommand(src, y.name), BaseCommand(src, z.name)]
  {
    assert [x, y, z][1..] == [y, z] && [y, z][1..] == [z] && [z][1..] == [];
    assert Flatten(src, [z]) == CommandsOf(src, z) + Flatten(src, []);
    assert Flatten(src, [y, z]) == CommandsOf(src, y) + Flatten(src, [z]);
    assert Flatten(src, [x, y, z]) == CommandsOf(src, x) + Flatten(src, [y, z]);
  }

  lemma WithoutActionMenuThree(x: Registered, y: Registered, z: Registered)
    requires x.name != ActionMenuName && y.name != ActionMenuName && z.name != ActionMenuName
    ensures WithoutActionMenu([x, y, z]) == [x, y, z]
  {
    assert [x, y, z][1..] == [y, z] && [y, z][1..] == [z] && [z][1..] == [];
    assert WithoutActionMenu([]) == [];
    assert WithoutActionMenu([z]) == [z];
    assert WithoutActionMenu([y, z]) == [y, z];
  }

  lemma ByNameThree(src: Source, e: Registered, o: Registered, d: Registered)
    requires src.registered == [e, o, d]
    requires e.name != ActionMenuName && o.name != ActionMenuName && d.name != ActionMenuName
    requires NameLe(d.name, e.name) && NameLe(e.name, o.name) && !NameLe(e.name, d.name) && !NameLe(o.name, d.name)
    ensures ByName(src) == [d, e, o]
  {
    WithoutActionMenuThree(e, o, d);
    SortThreeByName(e, o, d);
    assert NameLe(d.name, o.name) by { NameLeTransitive(d.name, e.name, o.name); }
    assert SortedByName([d, e, o]);
    SortByNameSorted([d, e, o]);
  }

  lemma RankThreeActions(src: Source, e: Registered, o: Registered, d: Registered)
    requires src.registered == [e, o, d]
    requires e.menus.None? && o.menus.None? && d.menus.None?
    requires e.name != ActionMenuName && o.name != ActionMenuName && d.name != ActionMenuName
    requires NameLe(d.name, e.name) && NameLe(e.name, o.name) && !NameLe(e.name, d.name) && !NameLe(o.name, d.name)
    requires Score(src.mru, d.name) == Score(src.mru, e.name) < Score(src.mru, o.name)
    ensures ProvideCodeActions(Some(Explorer(Some(src))))
         == [BaseCommand(src, o.name), BaseCommand(src, d.name), BaseCommand(src, e.name)]
  {
    ByNameThree(src, e, o, d);
    FlattenThree(src, d, e, o);
    RankThree(BaseCommand(src, d.name), BaseCommand(src, e.name), BaseCommand(src, o.name));
    MenuOfSource(src);
  }

  /** Actions `expand`, `open` and `delete` with `open` the only recently used
      one: `open` comes first with score 1, then `delete` before `expand`, both
      unused, by name order. */
  lemma RecentThenAlphabetical(src: Source)
    requires src.registered == [Registered("expand", None), Registered("open", None), Registered("delete", None)]
    requires src.mru == ["open"]
    ensures var r := ProvideCodeActions(Some(Explorer(Some(src))));
            && |r| == 3
            && r[0].name == "open" && r[0].score == 1
            && r[1].name == "delete" && r[1].score == -1
            && r[2].name == "expand" && r[2].score == -1
  {
    var e, o, d := src.registered[0], src.registered[1], src.registered[2];
    assert NameLe(d.name, e.name) && NameLe(e.name, o.name) && !NameLe(e.name, d.name) && !NameLe(o.name, d.name);
    assert o.name in src.mru && d.name !in src.mru && e.name !in src.mru;
    RankThreeActions(src, e, o, d);
  }
}
