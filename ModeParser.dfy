/** Symbolic permission instructions (ModeParser): a comma-separated list of
    instructions such as "ug+rw" or "o-x", a small subset of the symbolic mode
    grammar of the POSIX chmod utility (IEEE Std 1003.1, chmod, EXTENDED
    DESCRIPTION). Each instruction adds permissions to one of two caller-owned
    sets: `toAdd` for '+', `toRemove` for '-'. Nothing is ever taken out of a
    set, and an error part-way leaves the permissions already added in place.

    The specification functions describe an outcome as the permissions granted
    to each side plus the error thrown, if any; the methods apply those grants
    to the caller's mutable sets in place.
 */
module ModeParser {
  import opened Wrappers
  import opened PosixModes

  /** The two exceptions thrown; both carry the whole instruction as message. */
  datatype ModeError =
    | InvalidModeInstruction(message: string)
    | UnsupportedOperation(message: string)

  /** The meaning of one character of `who` or of `what`. */
  datatype Letter = Valid(n: nat) | Unsupported | Invalid

  const WHO_LETTERS: string := "ugo"
  const WHAT_LETTERS: string := "rwx"

  /** u, g, o are classes 0, 1, 2; 'a' is recognised but refused. */
  function WhoLetter(c: char): (l: Letter)
    ensures l.Valid? ==> l.n < 3 && WHO_LETTERS[l.n] == c
    ensures l.Unsupported? <==> c == 'a'
  {
    match c
    case 'u' => Valid(0)
    case 'g' => Valid(1)
    case 'o' => Valid(2)
    case 'a' => Unsupported
    case _ => Invalid
  }

  /** r, w, x are offsets 0, 1, 2; 'X' is recognised but refused. */
  function WhatLetter(c: char): (l: Letter)
    ensures l.Valid? ==> l.n < 3 && WHAT_LETTERS[l.n] == c
    ensures l.Unsupported? <==> c == 'X'
  {
    match c
    case 'r' => Valid(0)
    case 'w' => Valid(1)
    case 'x' => Valid(2)
    case 'X' => Unsupported
    case _ => Invalid
  }

  /** The exception a rejected letter raises. */
  function Refusal(l: Letter, instruction: string): ModeError {
    if l.Unsupported? then UnsupportedOperation(instruction) else InvalidModeInstruction(instruction)
  }

  /** Index of the first character of `who` that is not u, g or o (|who| if none). */
  function FirstBadWho(who: string): (i: nat)
    ensures i <= |who|
    ensures forall k :: 0 <= k < i ==> WhoLetter(who[k]).Valid?
    ensures i < |who| ==> !WhoLetter(who[i]).Valid?
  {
    if |who| == 0 || !WhoLetter(who[0]).Valid? then 0 else 1 + FirstBadWho(who[1..])
  }

  /** Index of the first character of `what` that is not r, w or x (|what| if none). */
  function FirstBadWhat(what: string): (j: nat)
    ensures j <= |what|
    ensures forall k :: 0 <= k < j ==> WhatLetter(what[k]).Valid?
    ensures j < |what| ==> !WhatLetter(what[j]).Valid?
  {
    if |what| == 0 || !WhatLetter(what[0]).Valid? then 0 else 1 + FirstBadWhat(what[1..])
  }

  /** The permissions the valid letters of `what` give to user class w. */
  function GrantOne(w: nat, what: string): set<Permission>
    requires w < 3
  {
    if |what| == 0 then {}
    else
      GrantOne(w, what[..|what| - 1])
      + match WhatLetter(what[|what| - 1])
        case Valid(t) => {PERMISSIONS[3 * w + t]}
        case _ => {}
  }

  /** The permissions every valid pair of a `who` letter and a `what` letter names. */
  function Grant(who: string, what: string): set<Permission> {
    if |who| == 0 then {}
    else
      Grant(who[..|who| - 1], what)
      + match WhoLetter(who[|who| - 1])
        case Valid(w) => GrantOne(w, what)
        case _ => {}
  }

  lemma GrantOneStep(w: nat, what: string, j: nat)
    requires w < 3 && j < |what| && WhatLetter(what[j]).Valid?
    ensures GrantOne(w, what[..j + 1]) == GrantOne(w, what[..j]) + {PERMISSIONS[3 * w + WhatLetter(what[j]).n]}
  {
    assert what[..j + 1][..j] == what[..j];
  }

  lemma GrantStep(who: string, what: string, i: nat)
    requires i < |who| && WhoLetter(who[i]).Valid?
    ensures Grant(who[..i + 1], what) == Grant(who[..i], what) + GrantOne(WhoLetter(who[i]).n, what)
  {
    assert who[..i + 1][..i] == who[..i];
  }

  /** The permissions added by modifySet and the exception it ends with. The
      check is interleaved with the additions: a bad `who` letter stops the walk
      when it is reached, and a bad `what` letter is met while the first `who`
      letter is processed, after the letters of `what` before it were added. */
  function ModifySetSpec(who: string, what: string, instruction: string)
    : (set<Permission>, Option<ModeError>)
  {
    var i0 := FirstBadWho(who);
    var j0 := FirstBadWhat(what);
    if j0 < |what| && i0 > 0 then
      (GrantOne(WhoLetter(who[0]).n, what[..j0]), Some(Refusal(WhatLetter(what[j0]), instruction)))
    else
      (Grant(who[..i0], what),
       if i0 < |who| then Some(Refusal(WhoLetter(who[i0]), instruction)) else None)
  }

  /** The three ways out of modifySet's loops, in terms of ModifySetSpec. */
  lemma ExitAtWho(who: string, what: string, i: nat, instruction: string)
    requires i < |who| && i <= FirstBadWho(who) && !WhoLetter(who[i]).Valid?
    requires i > 0 ==> FirstBadWhat(what) == |what|
    ensures ModifySetSpec(who, what, instruction)
      == (Grant(who[..i], what), Some(Refusal(WhoLetter(who[i]), instruction)))
  {
  }

  lemma ExitAtWhat(who: string, what: string, j: nat, instruction: string)
    requires 0 < |who| && WhoLetter(who[0]).Valid?
    requires j < |what| && j <= FirstBadWhat(what) && !WhatLetter(what[j]).Valid?
    ensures ModifySetSpec(who, what, instruction)
      == (GrantOne(WhoLetter(who[0]).n, what[..j]), Some(Refusal(WhatLetter(what[j]), instruction)))
  {
  }

  lemma ExitDone(who: string, what: string)
    requires FirstBadWho(who) == |who|
    requires |who| > 0 ==> FirstBadWhat(what) == |what|
    ensures forall instruction :: ModifySetSpec(who, what, instruction) == (Grant(who, what), None)
  {
    assert who[..|who|] == who;
  }

  /** A caller-owned Set<PosixFilePermission>, updated in place. */
  class PermissionSet {
    var elems: set<Permission>

    constructor(initial: set<Permission>)
      ensures elems == initial
    {
      elems := initial;
    }

    method Add(p: Permission)
      modifies this
      ensures elems == old(elems) + {p}
    {
      elems := elems + {p};
    }
  }

  /** The inner loop of modifySet, for one user class: add PERMISSIONS[3 * w +
      what] for each letter of `what`, throwing at the first bad one. */
  method AddForClass(whoOrdinal: nat, what: string, target: PermissionSet, instruction: string)
    returns (err: Option<ModeError>)
    requires whoOrdinal < 3
    modifies target
    ensures var j0 := FirstBadWhat(what);
      target.elems == old(target.elems) + GrantOne(whoOrdinal, what[..j0])
      && err == if j0 < |what| then Some(Refusal(WhatLetter(what[j0]), instruction)) else None
  {
    var j := 0;
    while j < |what|
      invariant j <= FirstBadWhat(what)
      invariant target.elems == old(target.elems) + GrantOne(whoOrdinal, what[..j])
    {
      var d := what[j];
      var whatOrdinal := 3 * whoOrdinal;
      if d == 'x' {
        whatOrdinal := whatOrdinal + 2;
      } else if d == 'w' {
        whatOrdinal := whatOrdinal + 1;
      } else if d == 'r' {
      } else if d == 'X' {
        return Some(UnsupportedOperation(instruction));
      } else {
        return Some(InvalidModeInstruction(instruction));
      }
      assert WhatLetter(d) == Valid(whatOrdinal - 3 * whoOrdinal);
      GrantOneStep(whoOrdinal, what, j);
      target.Add(PERMISSIONS[whatOrdinal]);
      j := j + 1;
    }
    err := None;
  }

  /** modifySet: for each letter of `who`, then each letter of `what`, add
      PERMISSIONS[3 * who + what] to `target`; throw at the first bad letter. */
  method ModifySet(who: string, what: string, target: PermissionSet, instruction: string)
    returns (err: Option<ModeError>)
    modifies target
    ensures target.elems == old(target.elems) + ModifySetSpec(who, what, instruction).0
    ensures err == ModifySetSpec(who, what, instruction).1
  {
    ghost var initial := target.elems;
    var i := 0;
    while i < |who|
      invariant i <= FirstBadWho(who)
      invariant i > 0 ==> FirstBadWhat(what) == |what|
      invariant target.elems == initial + Grant(who[..i], what)
    {
      var c := who[i];
      var whoOrdinal := 0;
      if c == 'o' {
        whoOrdinal := 2;
      } else if c == 'g' {
        whoOrdinal := 1;
      } else if c == 'u' {
      } else if c == 'a' {
        ExitAtWho(who, what, i, instruction);
        return Some(UnsupportedOperation(instruction));
      } else {
        ExitAtWho(who, what, i, instruction);
        return Some(InvalidModeInstruction(instruction));
      }
      assert WhoLetter(c) == Valid(whoOrdinal);
      err := AddForClass(whoOrdinal, what, target, instruction);
      if err.Some? {
        ExitAtWhat(who, what, FirstBadWhat(what), instruction);
        return;
      }
      assert what[..FirstBadWhat(what)] == what;
      GrantStep(who, what, i);
      i := i + 1;
    }
    ExitDone(who, what);
    err := None;
  }

  /** String.indexOf(char): the first position of c, or -1. */
  function IndexOf(s: string, c: char): (r: int)
    ensures r == -1 <==> c !in s
    ensures r >= 0 ==> r < |s| && s[r] == c && c !in s[..r]
  {
    if |s| == 0 then -1
    else if s[0] == c then 0
    else
      var r := IndexOf(s[1..], c);
      if r < 0 then -1
      else
        assert s[..r + 1] == [s[0]] + s[1..][..r];
        r + 1
  }

  datatype Side = ToAdd | ToRemove

  /** An instruction split at its operator. */
  datatype Instruction = Instruction(who: string, what: string, side: Side)

  function OperatorChar(side: Side): char {
    if side == ToAdd then '+' else '-'
  }

  /** The first part of parseOne: locate the operator ('+' wherever it is,
      otherwise '-'), default an empty `who` to "ugo", and refuse an
      instruction without operator or with nothing after it. */
  function Decompose(instruction: string): (r: Result<Instruction, ModeError>)
    ensures r.Failure? ==> r.error == InvalidModeInstruction(instruction)
    ensures '+' !in instruction && '-' !in instruction ==> r.Failure?
    ensures r.Success? ==>
              |r.value.who| > 0 && 0 < |r.value.what| < |instruction|
              && r.value.what == instruction[|instruction| - |r.value.what|..]
  {
    var plus := IndexOf(instruction, '+');
    var minus := IndexOf(instruction, '-');
    if plus < 0 && minus < 0 then Failure(InvalidModeInstruction(instruction))
    else
      var op := if plus >= 0 then plus else minus;
      var who := if op == 0 then WHO_LETTERS else instruction[..op];
      var what := instruction[op + 1..];
      if |what| == 0 then Failure(InvalidModeInstruction(instruction))
      else Success(Instruction(who, what, if plus >= 0 then ToAdd else ToRemove))
  }

  /** Grants of a whole parse: what goes to `toAdd`, what goes to `toRemove`,
      and the exception that ended it, if any. */
  datatype Outcome = Outcome(add: set<Permission>, remove: set<Permission>, error: Option<ModeError>)

  /** parseOne. */
  function ParseOneSpec(instruction: string): Outcome {
    match Decompose(instruction)
    case Failure(e) => Outcome({}, {}, Some(e))
    case Success(d) =>
      var (g, e) := ModifySetSpec(d.who, d.what, instruction);
      if d.side == ToAdd then Outcome(g, {}, e) else Outcome({}, g, e)
  }

  /** The effect of an outcome on the caller's two sets, holding add0 and
      remove0 before and add and remove after. The two may be the same set
      (`aliased`), which then receives both grants. */
  predicate Applied(o: Outcome, add0: set<Permission>, remove0: set<Permission>, aliased: bool,
                    add: set<Permission>, remove: set<Permission>)
  {
    if aliased then add == add0 + o.add + o.remove
    else add == add0 + o.add && remove == remove0 + o.remove
  }

  lemma AppliedCompose(o1: Outcome, o2: Outcome, aliased: bool,
                       add0: set<Permission>, remove0: set<Permission>,
                       add1: set<Permission>, remove1: set<Permission>,
                       add2: set<Permission>, remove2: set<Permission>)
    requires Applied(o1, add0, remove0, aliased, add1, remove1)
    requires Applied(o2, add1, remove1, aliased, add2, remove2)
    ensures Applied(Outcome(o1.add + o2.add, o1.remove + o2.remove, o2.error),
                    add0, remove0, aliased, add2, remove2)
  {
  }

  /** parseOne: modifySet on `toAdd` or on `toRemove`. */
  method ParseOne(instruction: string, toAdd: PermissionSet, toRemove: PermissionSet)
    returns (err: Option<ModeError>)
    modifies toAdd, toRemove
    ensures err == ParseOneSpec(instruction).error
    ensures Applied(ParseOneSpec(instruction), old(toAdd.elems), old(toRemove.elems),
                    toAdd == toRemove, toAdd.elems, toRemove.elems)
  {
    var plus := IndexOf(instruction, '+');
    var minus := IndexOf(instruction, '-');
    if plus < 0 && minus < 0 {
      return Some(InvalidModeInstruction(instruction));
    }
    var who: string;
    var what: string;
    var side: Side;
    if plus >= 0 {
      who := if plus == 0 then WHO_LETTERS else instruction[..plus];
      what := instruction[plus + 1..];
      side := ToAdd;
    } else {
      who := if minus == 0 then WHO_LETTERS else instruction[..minus];
      what := instruction[minus + 1..];
      side := ToRemove;
    }
    if |what| == 0 {
      return Some(InvalidModeInstruction(instruction));
    }
    assert Decompose(instruction) == Success(Instruction(who, what, side));
    var target := if side == ToAdd then toAdd else toRemove;
    err := ModifySet(who, what, target, instruction);
  }

  /** Whether a string contains a comma is what String.split tests first. */
  function Pieces(s: string): (ps: seq<string>)
    ensures |ps| >= 1
    decreases |s|
  {
    var i := IndexOf(s, ',');
    if i < 0 then [s] else [s[..i]] + Pieces(s[i + 1..])
  }

  /** The inverse of Pieces: the pieces joined with commas. */
  function Join(ps: seq<string>): string
    requires |ps| >= 1
  {
    if |ps| == 1 then ps[0] else ps[0] + "," + Join(ps[1..])
  }

  function DropTrailingEmpty(ps: seq<string>): seq<string> {
    if |ps| > 0 && ps[|ps| - 1] == "" then DropTrailingEmpty(ps[..|ps| - 1]) else ps
  }

  /** Pattern.compile(",").split(s): a string without a comma is returned whole
      (so "" gives [""]); otherwise the pieces between commas, minus the empty
      ones at the end. */
  function JavaSplit(s: string): seq<string> {
    if ',' !in s then [s] else DropTrailingEmpty(Pieces(s))
  }

  /** Combining the outcomes of two runs, the second starting where the first
      left off; a run that threw stops everything after it. */
  function Then(first: Outcome, second: Outcome): Outcome {
    if first.error.Some? then first
    else Outcome(first.add + second.add, first.remove + second.remove, second.error)
  }

  /** The runs of a list of outcomes, one after the other. */
  function Sequence(outcomes: seq<Outcome>): Outcome {
    if |outcomes| == 0 then Outcome({}, {}, None)
    else Then(Sequence(outcomes[..|outcomes| - 1]), outcomes[|outcomes| - 1])
  }

  function Outcomes(instructions: seq<string>): (os: seq<Outcome>)
    ensures |os| == |instructions|
    ensures forall k :: 0 <= k < |os| ==> os[k] == ParseOneSpec(instructions[k])
  {
    seq(|instructions|, k requires 0 <= k < |instructions| => ParseOneSpec(instructions[k]))
  }

  /** The outcome of applying parseOne to each instruction in order, stopping
      at the first exception. */
  function ParseSpec(instructions: seq<string>): Outcome {
    Sequence(Outcomes(instructions))
  }

  /** parse. */
  method Parse(instructions: string, toAdd: PermissionSet, toRemove: PermissionSet)
    returns (err: Option<ModeError>)
    modifies toAdd, toRemove
    ensures err == ParseSpec(JavaSplit(instructions)).error
    ensures Applied(ParseSpec(JavaSplit(instructions)), old(toAdd.elems), old(toRemove.elems),
                    toAdd == toRemove, toAdd.elems, toRemove.elems)
  {
    var pieces := JavaSplit(instructions);
    for k := 0 to |pieces|
      invariant ParseSpec(pieces[..k]).error.None?
      invariant Applied(ParseSpec(pieces[..k]), old(toAdd.elems), old(toRemove.elems),
                        toAdd == toRemove, toAdd.elems, toRemove.elems)
    {
      ParseSpecStep(pieces, k);
      ghost var add1, remove1 := toAdd.elems, toRemove.elems;
      err := ParseOne(pieces[k], toAdd, toRemove);
      AppliedCompose(ParseSpec(pieces[..k]), ParseOneSpec(pieces[k]), toAdd == toRemove,
                     old(toAdd.elems), old(toRemove.elems), add1, remove1, toAdd.elems, toRemove.elems);
      if err.Some? {
        ParseStopsAtError(pieces, k + 1);
        return;
      }
    }
    assert pieces[..|pieces|] == pieces;
    err := None;
  }

  lemma ParseSpecStep(instructions: seq<string>, k: nat)
    requires k < |instructions|
    ensures ParseSpec(instructions[..k + 1])
      == Then(ParseSpec(instructions[..k]), ParseOneSpec(instructions[k]))
  {
    var os := Outcomes(instructions[..k + 1]);
    assert os[..k] == Outcomes(instructions[..k]);
  }

  lemma {:induction false} SequenceStopsAtError(outcomes: seq<Outcome>, k: nat)
    requires k <= |outcomes|
    requires Sequence(outcomes[..k]).error.Some?
    ensures Sequence(outcomes) == Sequence(outcomes[..k])
    decreases |outcomes|
  {
    if k < |outcomes| {
      var shorter := outcomes[..|outcomes| - 1];
      assert shorter[..k] == outcomes[..k];
      SequenceStopsAtError(shorter, k);
    } else {
      assert outcomes[..k] == outcomes;
    }
  }

  /** Once an instruction has failed, later ones change nothing. */
  lemma ParseStopsAtError(instructions: seq<string>, k: nat)
    requires k <= |instructions|
    requires ParseSpec(instructions[..k]).error.Some?
    ensures ParseSpec(instructions) == ParseSpec(instructions[..k])
  {
    assert Outcomes(instructions)[..k] == Outcomes(instructions[..k]);
    SequenceStopsAtError(Outcomes(instructions), k);
  }

  // ---------------------------------------------------------------------
  // Letters and grants

  lemma WhoLetterValid(c: char)
    ensures WhoLetter(c).Valid? <==> c in WHO_LETTERS
  {
  }

  lemma WhatLetterValid(c: char)
    ensures WhatLetter(c).Valid? <==> c in WHAT_LETTERS
  {
  }

  /** User class w and offset t name PERMISSIONS[3 * w + t]: the class is the
      permission's ordinal divided by 3, the offset its remainder. */
  lemma CellOrdinal(p: Permission, w: nat, t: nat)
    requires w < 3 && t < 3
    ensures PERMISSIONS[3 * w + t] == p <==> Ordinal(p) / 3 == w && Ordinal(p) % 3 == t
  {
    OrdinalOfIndex(3 * w + t);
  }

  lemma {:induction false} GrantOneMember(w: nat, what: string, p: Permission)
    requires w < 3
    ensures p in GrantOne(w, what) <==> Ordinal(p) / 3 == w && WHAT_LETTERS[Ordinal(p) % 3] in what
  {
    if |what| > 0 {
      var last := what[|what| - 1];
      var prefix := what[..|what| - 1];
      GrantOneMember(w, prefix, p);
      assert what == prefix + [last];
      WhatLetterValid(last);
      match WhatLetter(last)
      case Valid(t) => CellOrdinal(p, w, t);
      case _ =>
    }
  }

  /** A permission is granted exactly when its class letter occurs in `who`
      and its permission letter occurs in `what`; other characters add nothing. */
  lemma {:induction false} GrantMember(who: string, what: string, p: Permission)
    ensures p in Grant(who, what)
      <==> WHO_LETTERS[Ordinal(p) / 3] in who && WHAT_LETTERS[Ordinal(p) % 3] in what
  {
    if |who| > 0 {
      var last := who[|who| - 1];
      var prefix := who[..|who| - 1];
      GrantMember(prefix, what, p);
      assert who == prefix + [last];
      WhoLetterValid(last);
      match WhoLetter(last)
      case Valid(w) => GrantOneMember(w, what, p);
      case _ =>
    }
  }

  /** "ugo" with "rwx" names every permission. */
  lemma GrantEverything()
    ensures Grant(WHO_LETTERS, WHAT_LETTERS) == ALL
  {
    forall p: Permission
      ensures p in Grant(WHO_LETTERS, WHAT_LETTERS) <==> p in ALL
    {
      AllIsEveryPermission(p);
      GrantMember(WHO_LETTERS, WHAT_LETTERS, p);
      var n := Ordinal(p);
      assert WHO_LETTERS[n / 3] in WHO_LETTERS;
      assert WHAT_LETTERS[n % 3] in WHAT_LETTERS;
    }
  }

  // ---------------------------------------------------------------------
  // modifySet

  /** modifySet only ever adds permissions the full instruction names, and it
      succeeds exactly when every letter is valid (the letters of `what` are
      only looked at when `who` is not empty); it then adds all of them. */
  lemma ModifySetOutcome(who: string, what: string, instruction: string)
    ensures ModifySetSpec(who, what, instruction).0 <= Grant(who, what)
    ensures ModifySetSpec(who, what, instruction).1.None?
      <==> (forall k :: 0 <= k < |who| ==> who[k] in WHO_LETTERS)
           && (|who| > 0 ==> forall k :: 0 <= k < |what| ==> what[k] in WHAT_LETTERS)
    ensures ModifySetSpec(who, what, instruction).1.None?
      ==> ModifySetSpec(who, what, instruction).0 == Grant(who, what)
  {
    var i0 := FirstBadWho(who);
    var j0 := FirstBadWhat(what);
    forall p | p in ModifySetSpec(who, what, instruction).0
      ensures p in Grant(who, what)
    {
      GrantMember(who, what, p);
      if j0 < |what| && i0 > 0 {
        GrantOneMember(WhoLetter(who[0]).n, what[..j0], p);
        GrantOneMember(WhoLetter(who[0]).n, what, p);
        var t :| 0 <= t < |what[..j0]| && what[..j0][t] == WHAT_LETTERS[Ordinal(p) % 3];
        assert what[t] == WHAT_LETTERS[Ordinal(p) % 3];
        assert who[0] == WHO_LETTERS[Ordinal(p) / 3];
      } else {
        GrantMember(who[..i0], what, p);
        var w :| 0 <= w < |who[..i0]| && who[..i0][w] == WHO_LETTERS[Ordinal(p) / 3];
        assert who[w] == WHO_LETTERS[Ordinal(p) / 3];
      }
    }
    if i0 < |who| {
      WhoLetterValid(who[i0]);
    }
    if |who| > 0 && j0 < |what| {
      WhatLetterValid(what[j0]);
    }
    forall k | 0 <= k < |who|
      ensures k < i0 ==> who[k] in WHO_LETTERS
    {
      WhoLetterValid(who[k]);
    }
    forall k | 0 <= k < |what|
      ensures k < j0 ==> what[k] in WHAT_LETTERS
    {
      WhatLetterValid(what[k]);
    }
    assert who[..|who|] == who;
  }

  /** "ug" with "rw": four permissions, no exception. */
  lemma ModifySetExample(instruction: string)
    ensures ModifySetSpec("ug", "rw", instruction)
      == ({OwnerRead, OwnerWrite, GroupRead, GroupWrite}, None)
  {
    ModifySetOutcome("ug", "rw", instruction);
    assert forall k :: 0 <= k < |"ug"| ==> "ug"[k] in WHO_LETTERS;
    assert forall k :: 0 <= k < |"rw"| ==> "rw"[k] in WHAT_LETTERS;
    assert ModifySetSpec("ug", "rw", instruction).1 == None;
    forall p: Permission
      ensures p in Grant("ug", "rw") <==> p in {OwnerRead, OwnerWrite, GroupRead, GroupWrite}
    {
      GrantMember("ug", "rw", p);
      var n := Ordinal(p);
      assert WHO_LETTERS[n / 3] in "ug" <==> n < 6;
      assert WHAT_LETTERS[n % 3] in "rw" <==> n % 3 < 2;
    }
    assert Grant("ug", "rw") == {OwnerRead, OwnerWrite, GroupRead, GroupWrite};
  }

  /** No rollback: in "ua" the 'u' grants are made before 'a' is refused, and
      in "rq" the 'r' grant is made before 'q' is refused. */
  lemma ModifySetNoRollback(instruction: string)
    ensures ModifySetSpec("ua", "r", instruction)
      == ({OwnerRead}, Some(UnsupportedOperation(instruction)))
    ensures ModifySetSpec("g", "rq", instruction)
      == ({GroupRead}, Some(InvalidModeInstruction(instruction)))
  {
    assert FirstBadWho("ua") == 1;
    assert "ua"[..1] == "u";
    assert Grant("u", "r") == GrantOne(0, "r");
    assert FirstBadWhat("rq") == 1;
    assert "rq"[..1] == "r";
    assert GrantOne(0, "r") == {PERMISSIONS[0]};
    assert GrantOne(1, "r") == {PERMISSIONS[3]};
  }

  // ---------------------------------------------------------------------
  // parseOne

  /** Position of the operator parseOne splits at: the first '+' if there is
      one, otherwise the first '-'. */
  function OperatorIndex(instruction: string): int {
    if '+' in instruction then IndexOf(instruction, '+') else IndexOf(instruction, '-')
  }

  /** parseOne refuses, with the instruction as message, exactly the
      instructions without an operator and those ending at their operator;
      otherwise the side is '+' when a '+' occurs anywhere. */
  lemma DecomposeOutcome(instruction: string)
    ensures Decompose(instruction).Failure?
      <==> ('+' !in instruction && '-' !in instruction)
           || OperatorIndex(instruction) == |instruction| - 1
    ensures Decompose(instruction).Failure?
      ==> Decompose(instruction).error == InvalidModeInstruction(instruction)
    ensures Decompose(instruction).Success?
      ==> (Decompose(instruction).value.side == ToAdd <==> '+' in instruction)
  {
  }

  /** Splitting is undone by putting the operator back between the parts
      (an operator in first position stands for the default "ugo"). */
  lemma DecomposeInverse(instruction: string)
    requires Decompose(instruction).Success?
    ensures var d := Decompose(instruction).value;
      var k := OperatorIndex(instruction);
      0 <= k < |instruction|
      && (k == 0 ==> d.who == WHO_LETTERS)
      && instruction == (if k == 0 then "" else d.who) + [OperatorChar(d.side)] + d.what
  {
    var d := Decompose(instruction).value;
    var k := OperatorIndex(instruction);
    assert instruction == instruction[..k] + [instruction[k]] + instruction[k + 1..];
  }

  lemma {:induction false} IndexOfAfter(prefix: string, c: char, suffix: string)
    requires c !in prefix
    ensures IndexOf(prefix + [c] + suffix, c) == |prefix|
  {
    var s := prefix + [c] + suffix;
    assert s[|prefix|] == c;
    assert s[..|prefix|] == prefix;
  }

  /** Joining a `who` and a nonempty `what` with an operator and splitting
      again gives them back, provided `who` holds no operator and a '-'
      instruction's `what` holds no '+'. */
  lemma DecomposeCompose(who: string, what: string, side: Side)
    requires |who| > 0 && |what| > 0
    requires '+' !in who && '-' !in who
    requires side == ToRemove ==> '+' !in what
    ensures Decompose(who + [OperatorChar(side)] + what) == Success(Instruction(who, what, side))
  {
    var s := who + [OperatorChar(side)] + what;
    IndexOfAfter(who, OperatorChar(side), what);
    assert s[..|who|] == who;
    assert s[|who| + 1..] == what;
    if side == ToRemove {
      assert '+' !in s;
    }
  }

  /** The tests' refused instructions: "" and "ur" have no operator. */
  lemma RefusedInstructions()
    ensures ParseOneSpec("") == Outcome({}, {}, Some(InvalidModeInstruction("")))
    ensures ParseOneSpec("ur") == Outcome({}, {}, Some(InvalidModeInstruction("ur")))
    ensures ParseOneSpec("u+") == Outcome({}, {}, Some(InvalidModeInstruction("u+")))
  {
    assert IndexOf("u+", '+') == 1;
  }

  /** A '+' instruction only grants to `toAdd`, a '-' one only to `toRemove`. */
  lemma OneSideOnly(instruction: string)
    ensures '+' in instruction ==> ParseOneSpec(instruction).remove == {}
    ensures '+' !in instruction ==> ParseOneSpec(instruction).add == {}
  {
  }

  /** An operator in first position applies to user, group and others. */
  lemma LeadingOperator(what: string)
    requires |what| > 0 && '+' !in what
    ensures ParseOneSpec("-" + what).remove == ModifySetSpec(WHO_LETTERS, what, "-" + what).0
  {
    assert IndexOf("-" + what, '-') == 0;
  }

  // ---------------------------------------------------------------------
  // parse

  lemma {:induction false} PiecesJoin(s: string)
    ensures Join(Pieces(s)) == s
    ensures forall k :: 0 <= k < |Pieces(s)| ==> ',' !in Pieces(s)[k]
    decreases |s|
  {
    var i := IndexOf(s, ',');
    if i >= 0 {
      var rest := s[i + 1..];
      PiecesJoin(rest);
      var ps := Pieces(s);
      assert ps == [s[..i]] + Pieces(rest);
      assert Join(ps) == s by {
        assert ps[1..] == Pieces(rest);
        assert Join(ps) == s[..i] + "," + Join(Pieces(rest));
        assert s == s[..i] + "," + rest;
      }
      forall k | 0 <= k < |ps|
        ensures ',' !in ps[k]
      {
        if k > 0 {
          assert ps[k] == Pieces(rest)[k - 1];
        }
      }
    }
  }

  lemma {:induction false} PiecesThenComma(s: string)
    ensures Pieces(s + ",") == Pieces(s) + [""]
    decreases |s|
  {
    var t := s + ",";
    if ',' in s {
      var i := IndexOf(s, ',');
      assert IndexOf(t, ',') == i by {
        assert t[..i + 1] == s[..i + 1];
      }
      assert t[..i] == s[..i];
      assert t[i + 1..] == s[i + 1..] + ",";
      PiecesThenComma(s[i + 1..]);
      assert Pieces(t) == [s[..i]] + Pieces(s[i + 1..] + ",");
      assert Pieces(s) == [s[..i]] + Pieces(s[i + 1..]);
    } else {
      assert IndexOf(s + [','] + "", ',') == |s| by {
        IndexOfAfter(s, ',', "");
      }
      assert s + [','] + "" == t;
      assert t[..|s|] == s;
      assert t[|s| + 1..] == "";
      assert Pieces(t) == [s] + Pieces("");
      assert Pieces("") == [""];
    }
  }

  lemma {:induction false} DropTrailingEmptyShape(ps: seq<string>)
    ensures var r := DropTrailingEmpty(ps);
      r <= ps
      && (forall k :: |r| <= k < |ps| ==> ps[k] == "")
      && (|r| > 0 ==> r[|r| - 1] != "")
    decreases |ps|
  {
    if |ps| > 0 && ps[|ps| - 1] == "" {
      DropTrailingEmptyShape(ps[..|ps| - 1]);
    }
  }

  /** The instructions parse walks are the comma-separated pieces of the
      string, in order, with the empty ones at the end left out unless the
      string has no comma at all. */
  lemma JavaSplitShape(s: string)
    ensures var r := JavaSplit(s);
      r <= Pieces(s)
      && (forall k :: |r| <= k < |Pieces(s)| ==> Pieces(s)[k] == "")
      && (',' in s && |r| > 0 ==> r[|r| - 1] != "")
  {
    DropTrailingEmptyShape(Pieces(s));
  }

  /** A trailing comma is ignored. */
  lemma TrailingCommaIgnored(s: string)
    requires s != ""
    ensures JavaSplit(s + ",") == JavaSplit(s)
  {
    PiecesThenComma(s);
    assert DropTrailingEmpty(Pieces(s) + [""]) == DropTrailingEmpty(Pieces(s));
    if ',' !in s {
      assert Pieces(s) == [s];
    }
  }

  /** parse of "" refuses the empty instruction; parse of "," does nothing. */
  lemma EmptyAndCommaOnly()
    ensures ParseSpec(JavaSplit("")) == Outcome({}, {}, Some(InvalidModeInstruction("")))
    ensures ParseSpec(JavaSplit(",")) == Outcome({}, {}, None)
  {
    assert JavaSplit("") == [""];
    assert [""][..0] == [];
    RefusedInstructions();
    assert Pieces(",") == ["", ""];
    assert JavaSplit(",") == [];
  }

  lemma {:induction false} SequenceAppend(first: seq<Outcome>, second: seq<Outcome>)
    ensures Sequence(first + second) == Then(Sequence(first), Sequence(second))
    decreases |second|
  {
    if |second| == 0 {
      assert first + second == first;
    } else {
      var all := first + second;
      assert all[..|all| - 1] == first + second[..|second| - 1];
      SequenceAppend(first, second[..|second| - 1]);
    }
  }

  /** parse over a concatenation of instruction lists is parse over the first
      followed, if it succeeded, by parse over the second. */
  lemma ParseAppend(first: seq<string>, second: seq<string>)
    ensures ParseSpec(first + second) == Then(ParseSpec(first), ParseSpec(second))
  {
    assert Outcomes(first + second) == Outcomes(first) + Outcomes(second);
    SequenceAppend(Outcomes(first), Outcomes(second));
  }

  lemma {:induction false} SequenceSucceedsIff(outcomes: seq<Outcome>)
    ensures Sequence(outcomes).error.None?
      <==> forall k :: 0 <= k < |outcomes| ==> outcomes[k].error.None?
  {
    if |outcomes| > 0 {
      var prefix := outcomes[..|outcomes| - 1];
      SequenceSucceedsIff(prefix);
      assert forall k :: 0 <= k < |prefix| ==> prefix[k] == outcomes[k];
    }
  }

  /** parse succeeds exactly when every instruction does on its own. */
  lemma ParseSucceedsIff(instructions: seq<string>)
    ensures ParseSpec(instructions).error.None?
      <==> forall k :: 0 <= k < |instructions| ==> ParseOneSpec(instructions[k]).error.None?
  {
    SequenceSucceedsIff(Outcomes(instructions));
  }

  lemma UgPlusRw()
    ensures ParseOneSpec("ug+rw") == Outcome({OwnerRead, OwnerWrite, GroupRead, GroupWrite}, {}, None)
  {
    DecomposeCompose("ug", "rw", ToAdd);
    assert "ug" + ['+'] + "rw" == "ug+rw";
    ModifySetExample("ug+rw");
  }

  lemma OMinusX()
    ensures ParseOneSpec("o-x") == Outcome({}, {OthersExecute}, None)
  {
    DecomposeCompose("o", "x", ToRemove);
    assert "o" + ['-'] + "x" == "o-x";
    assert FirstBadWho("o") == 1 && FirstBadWhat("x") == 1;
    assert "o"[..1] == "o";
    assert Grant("o", "x") == GrantOne(2, "x");
    assert GrantOne(2, "x") == {PERMISSIONS[8]};
  }

  /** Splitting at the first comma. */
  lemma PiecesCons(first: string, rest: string)
    requires ',' !in first
    ensures Pieces(first + "," + rest) == [first] + Pieces(rest)
  {
    var s := first + "," + rest;
    IndexOfAfter(first, ',', rest);
    assert s[..|first|] == first;
    assert s[|first| + 1..] == rest;
  }

  /** Two instructions joined by a comma are split back into the two, as
      long as the second is not empty (an empty last piece is dropped). */
  lemma SplitPair(first: string, second: string)
    requires ',' !in first && ',' !in second && second != ""
    ensures JavaSplit(first + "," + second) == [first, second]
  {
    var s := first + "," + second;
    PiecesCons(first, second);
    assert Pieces(second) == [second];
    assert s[|first|] == ',';
    assert DropTrailingEmpty([first, second]) == [first, second];
  }

  lemma ParsePair(first: string, second: string)
    ensures ParseSpec([first, second])
      == Then(Then(Outcome({}, {}, None), ParseOneSpec(first)), ParseOneSpec(second))
  {
    var os := Outcomes([first, second]);
    assert os == [ParseOneSpec(first), ParseOneSpec(second)];
    assert os[..1] == [ParseOneSpec(first)];
    assert os[..1][..0] == [];
    assert Sequence(os[..1]) == Then(Sequence([]), os[0]);
    assert Sequence(os) == Then(Sequence(os[..1]), os[1]);
  }

  /** "ug+rw,o-x" (split as SplitPair shows): read and write for user and
      group to add, execute for others to remove. */
  lemma ParseExample()
    ensures ParseSpec(["ug+rw", "o-x"])
      == Outcome({OwnerRead, OwnerWrite, GroupRead, GroupWrite}, {OthersExecute}, None)
  {
    ParsePair("ug+rw", "o-x");
    UgPlusRw();
    OMinusX();
  }
}
