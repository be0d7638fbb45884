/** The rule engine: validation and evaluation of condition trees against their and/or
    meaning, and dry-run candidates against live ones. Regular expressions, number, boolean
    and date syntax, case folding and address syntax are parameters (`Lib`), the same for
    validation and evaluation. */
module Rules {
  import opened Options

  datatype Address = Address(name: string, addr: string)

  datatype Lib = Lib(
    regexCompiles: string -> bool,
    regexMatches: (string, string) -> bool,
    parseBool: string -> Option<bool>,
    parseInt: string -> Option<int>,
    parseDate: string -> Option<int>,
    equalFold: (string, string) -> bool,
    printAddress: Address -> string,
    parseAddress: string -> Option<Address>)

  const MAX_DEPTH := 3

  /** `domain.RuleNode`: group and leaf share one shape. */
  datatype RuleNode = RuleNode(op: string, children: seq<RuleNode>, kind: string, value: string)

  datatype Candidate = Candidate(from: string, fromAddr: string, to: seq<string>, toAddrs: seq<string>,
                                 cc: seq<string>, ccAddrs: seq<string>, subject: string, hasAttachments: bool,
                                 attachmentTypes: seq<string>, size: int, date: int, folderName: string, accountId: int)

  // ---------------------------------------------------------------- validation

  predicate ValidLeaf(lib: Lib, kind: string, value: string) {
    if kind in {"from_contains", "to_contains", "subject_contains"} then lib.regexCompiles(value)
    else if kind in {"from_domain", "from_exact", "to_domain", "attachment_type", "folder_is", "folder_is_not"}
      then value != ""
    else if kind == "has_attachments" then lib.parseBool(value).Some?
    else if kind in {"size_greater_than", "size_less_than", "account_is"} then lib.parseInt(value).Some?
    else if kind in {"date_after", "date_before"} then lib.parseDate(value).Some?
    else false
  }

  predicate ValidAt(lib: Lib, n: RuleNode, depth: nat)
    decreases n
  {
    var isGroup, isLeaf := n.op != "", n.kind != "";
    if isGroup == isLeaf then false
    else if isGroup then
      && (n.op == "and" || n.op == "or") && n.children != [] && depth <= MAX_DEPTH
      && forall i :: 0 <= i < |n.children| ==> ValidAt(lib, n.children[i], depth + 1)
    else ValidLeaf(lib, n.kind, n.value)
  }

  predicate Validate(lib: Lib, n: RuleNode) {
    ValidAt(lib, n, 1)
  }

  // ---------------------------------------------------------------- evaluation

  predicate AnyRegex(lib: Lib, pattern: string, ss: seq<string>) {
    lib.regexCompiles(pattern) && exists i :: 0 <= i < |ss| && lib.regexMatches(pattern, ss[i])
  }

  /** `strings.Cut(addr, "@")` */
  function AfterAt(addr: string): Option<string> {
    if addr == "" then None else if addr[0] == '@' then Some(addr[1..]) else AfterAt(addr[1..])
  }

  predicate DomainEquals(lib: Lib, addr: string, want: string) {
    AfterAt(addr).Some? && lib.equalFold(AfterAt(addr).value, want)
  }

  predicate AnyType(lib: Lib, mime: string, types: seq<string>) {
    exists i :: 0 <= i < |types| && lib.equalFold(types[i], mime)
  }

  /** Every parse has its error branch, which answers false. */
  predicate EvaluateLeaf(lib: Lib, kind: string, value: string, c: Candidate) {
    if kind == "from_contains" then AnyRegex(lib, value, [c.from])
    else if kind == "from_domain" then DomainEquals(lib, c.fromAddr, value)
    else if kind == "from_exact" then lib.equalFold(c.fromAddr, value)
    else if kind == "to_contains" then AnyRegex(lib, value, c.to)
    else if kind == "to_domain" then exists i :: 0 <= i < |c.toAddrs| && DomainEquals(lib, c.toAddrs[i], value)
    else if kind == "subject_contains" then AnyRegex(lib, value, [c.subject])
    else if kind == "has_attachments" then lib.parseBool(value) == Some(c.hasAttachments)
    else if kind == "attachment_type" then AnyType(lib, value, c.attachmentTypes)
    else if kind == "size_greater_than" then lib.parseInt(value).Some? && c.size > lib.parseInt(value).value
    else if kind == "size_less_than" then lib.parseInt(value).Some? && c.size < lib.parseInt(value).value
    else if kind == "date_after" then lib.parseDate(value).Some? && c.date > lib.parseDate(value).value
    else if kind == "date_before" then lib.parseDate(value).Some? && c.date < lib.parseDate(value).value
    else if kind == "folder_is" then lib.equalFold(c.folderName, value)
    else if kind == "folder_is_not" then !lib.equalFold(c.folderName, value)
    else if kind == "account_is" then lib.parseInt(value).Some? && c.accountId == lib.parseInt(value).value
    else false
  }

  predicate Evaluate(lib: Lib, n: RuleNode, c: Candidate)
    decreases n
  {
    if n.op == "and" then forall i :: 0 <= i < |n.children| ==> Evaluate(lib, n.children[i], c)
    else if n.op == "or" then exists i :: 0 <= i < |n.children| && Evaluate(lib, n.children[i], c)
    else n.op == "" && EvaluateLeaf(lib, n.kind, n.value, c)
  }

  // ---------------------------------------------------------------- what a tree means

  /** A leaf with its value already understood: no parsing left to fail. */
  datatype Test =
    | FromContains(pattern: string)
    | FromDomain(domain: string)
    | FromExact(address: string)
    | ToContains(pattern: string)
    | ToDomain(domain: string)
    | SubjectContains(pattern: string)
    | HasAttachments(want: bool)
    | AttachmentType(mime: string)
    | SizeGreaterThan(bytes: int)
    | SizeLessThan(bytes: int)
    | DateAfter(instant: int)
    | DateBefore(instant: int)
    | FolderIs(name: string)
    | FolderIsNot(name: string)
    | AccountIs(id: int)

  datatype Condition = All(parts: seq<Condition>) | Any(parts: seq<Condition>) | Leaf(test: Test)

  /** The address has a domain, all that follows its first '@', and it is this one. */
  ghost predicate InDomain(lib: Lib, addr: string, want: string) {
    exists local, d :: addr == local + "@" + d && '@' !in local && lib.equalFold(d, want)
  }

  ghost predicate Passes(lib: Lib, t: Test, c: Candidate) {
    match t
    case FromContains(p) => lib.regexMatches(p, c.from)
    case FromDomain(d) => InDomain(lib, c.fromAddr, d)
    case FromExact(a) => lib.equalFold(c.fromAddr, a)
    case ToContains(p) => exists i :: 0 <= i < |c.to| && lib.regexMatches(p, c.to[i])
    case ToDomain(d) => exists i :: 0 <= i < |c.toAddrs| && InDomain(lib, c.toAddrs[i], d)
    case SubjectContains(p) => lib.regexMatches(p, c.subject)
    case HasAttachments(want) => c.hasAttachments == want
    case AttachmentType(m) =>
      exists i :: 0 <= i < |c.attachmentTypes| && lib.equalFold(c.attachmentTypes[i], m)
    case SizeGreaterThan(n) => c.size > n
    case SizeLessThan(n) => c.size < n
    case DateAfter(d) => c.date > d
    case DateBefore(d) => c.date < d
    case FolderIs(f) => lib.equalFold(c.folderName, f)
    case FolderIsNot(f) => !lib.equalFold(c.folderName, f)
    case AccountIs(id) => c.accountId == id
  }

  ghost predicate Holds(lib: Lib, cond: Condition, c: Candidate)
    decreases cond
  {
    match cond
    case All(parts) => forall i :: 0 <= i < |parts| ==> Holds(lib, parts[i], c)
    case Any(parts) => exists i :: 0 <= i < |parts| && Holds(lib, parts[i], c)
    case Leaf(test) => Passes(lib, test, c)
  }

  /** At most `levels` nested groups, none of them empty. */
  ghost predicate Shallow(cond: Condition, levels: nat)
    decreases cond
  {
    cond.Leaf? ||
    (levels > 0 && cond.parts != [] && forall i :: 0 <= i < |cond.parts| ==> Shallow(cond.parts[i], levels - 1))
  }

  /** `kind` and `value` spell the test. */
  ghost predicate Spells(lib: Lib, kind: string, value: string, t: Test) {
    match t
    case FromContains(p) => kind == "from_contains" && value == p && lib.regexCompiles(p)
    case FromDomain(d) => kind == "from_domain" && value == d && d != ""
    case FromExact(a) => kind == "from_exact" && value == a && a != ""
    case ToContains(p) => kind == "to_contains" && value == p && lib.regexCompiles(p)
    case ToDomain(d) => kind == "to_domain" && value == d && d != ""
    case SubjectContains(p) => kind == "subject_contains" && value == p && lib.regexCompiles(p)
    case HasAttachments(want) => kind == "has_attachments" && lib.parseBool(value) == Some(want)
    case AttachmentType(m) => kind == "attachment_type" && value == m && m != ""
    case SizeGreaterThan(n) => kind == "size_greater_than" && lib.parseInt(value) == Some(n)
    case SizeLessThan(n) => kind == "size_less_than" && lib.parseInt(value) == Some(n)
    case DateAfter(d) => kind == "date_after" && lib.parseDate(value) == Some(d)
    case DateBefore(d) => kind == "date_before" && lib.parseDate(value) == Some(d)
    case FolderIs(f) => kind == "folder_is" && value == f && f != ""
    case FolderIsNot(f) => kind == "folder_is_not" && value == f && f != ""
    case AccountIs(id) => kind == "account_is" && lib.parseInt(value) == Some(id)
  }

  /** The stored node writes down the condition; a leaf's children are ignored. */
  ghost predicate Writes(lib: Lib, n: RuleNode, cond: Condition)
    decreases n
  {
    match cond
    case Leaf(test) => n.op == "" && Spells(lib, n.kind, n.value, test)
    case All(parts) =>
      && n.op == "and" && n.kind == "" && |n.children| == |parts|
      && forall i :: 0 <= i < |parts| ==> Writes(lib, n.children[i], parts[i])
    case Any(parts) =>
      && n.op == "or" && n.kind == "" && |n.children| == |parts|
      && forall i :: 0 <= i < |parts| ==> Writes(lib, n.children[i], parts[i])
  }

  lemma LeafSpelled(lib: Lib, kind: string, value: string) returns (t: Test)
    requires ValidLeaf(lib, kind, value)
    ensures Spells(lib, kind, value, t)
  {
    if kind == "from_contains" { t := FromContains(value); }
    else if kind == "from_domain" { t := FromDomain(value); }
    else if kind == "from_exact" { t := FromExact(value); }
    else if kind == "to_contains" { t := ToContains(value); }
    else if kind == "to_domain" { t := ToDomain(value); }
    else if kind == "subject_contains" { t := SubjectContains(value); }
    else if kind == "has_attachments" { t := HasAttachments(lib.parseBool(value).value); }
    else if kind == "attachment_type" { t := AttachmentType(value); }
    else if kind == "size_greater_than" { t := SizeGreaterThan(lib.parseInt(value).value); }
    else if kind == "size_less_than" { t := SizeLessThan(lib.parseInt(value).value); }
    else if kind == "date_after" { t := DateAfter(lib.parseDate(value).value); }
    else if kind == "date_before" { t := DateBefore(lib.parseDate(value).value); }
    else if kind == "folder_is" { t := FolderIs(value); }
    else if kind == "folder_is_not" { t := FolderIsNot(value); }
    else { t := AccountIs(lib.parseInt(value).value); }
  }

  /** A valid tree has a meaning ... */
  lemma {:induction false} ValidHasMeaning(lib: Lib, n: RuleNode, depth: nat) returns (cond: Condition)
    requires ValidAt(lib, n, depth) && 1 <= depth
    ensures Writes(lib, n, cond) && Shallow(cond, if depth <= MAX_DEPTH then MAX_DEPTH + 1 - depth else 0)
    decreases n
  {
    if n.op == "" {
      var t := LeafSpelled(lib, n.kind, n.value);
      cond := Leaf(t);
    } else {
      var parts := [];
      for k := 0 to |n.children|
        invariant |parts| == k
        invariant forall i :: 0 <= i < k ==>
          Writes(lib, n.children[i], parts[i]) && Shallow(parts[i], MAX_DEPTH - depth)
      {
        var part := ValidHasMeaning(lib, n.children[k], depth + 1);
        parts := parts + [part];
      }
      cond := if n.op == "and" then All(parts) else Any(parts);
    }
  }

  /** ... and only a valid tree has one. */
  lemma {:induction false} MeaningIsValid(lib: Lib, n: RuleNode, cond: Condition, depth: nat)
    requires 1 <= depth <= MAX_DEPTH + 1 && Writes(lib, n, cond) && Shallow(cond, MAX_DEPTH + 1 - depth)
    ensures ValidAt(lib, n, depth)
    decreases n
  {
    if !cond.Leaf? {
      forall i | 0 <= i < |n.children| ensures ValidAt(lib, n.children[i], depth + 1) {
        MeaningIsValid(lib, n.children[i], cond.parts[i], depth + 1);
      }
    }
  }

  /** A tree passes validation exactly when it writes down a condition with non-empty groups
      nested at most three deep and every leaf value understood. */
  lemma ValidateIff(lib: Lib, n: RuleNode)
    ensures Validate(lib, n) <==> exists cond :: Writes(lib, n, cond) && Shallow(cond, MAX_DEPTH)
  {
    if Validate(lib, n) {
      var cond := ValidHasMeaning(lib, n, 1);
      assert Writes(lib, n, cond) && Shallow(cond, MAX_DEPTH);
    }
    if cond :| Writes(lib, n, cond) && Shallow(cond, MAX_DEPTH) {
      MeaningIsValid(lib, n, cond, 1);
    }
  }

  lemma {:induction false} CutAt(local: string, d: string)
    requires '@' !in local
    ensures AfterAt(local + "@" + d) == Some(d)
    decreases |local|
  {
    var addr := local + "@" + d;
    if local == "" {
      assert addr[1..] == d;
    } else {
      assert addr[0] == local[0] && addr[1..] == local[1..] + "@" + d;
      assert forall c :: c in local[1..] ==> c in local;
      CutAt(local[1..], d);
    }
  }

  lemma {:induction false} CutWhere(addr: string) returns (local: string)
    ensures '@' !in local
    ensures if AfterAt(addr).Some? then addr == local + "@" + AfterAt(addr).value else addr == local
    decreases |addr|
  {
    if addr == "" || addr[0] == '@' {
      local := "";
      assert addr != "" ==> addr == "" + "@" + addr[1..];
    } else {
      local := CutWhere(addr[1..]);
      local := [addr[0]] + local;
    }
  }

  /** The domain of an address is what follows its first '@'; an address without one has none. */
  lemma DomainIs(lib: Lib, local: string, d: string, want: string)
    requires '@' !in local
    ensures DomainEquals(lib, local + "@" + d, want) <==> lib.equalFold(d, want)
    ensures !DomainEquals(lib, local, want)
  {
    CutAt(local, d);
    NoCut(local);
  }

  lemma {:induction false} NoCut(local: string)
    requires '@' !in local
    ensures AfterAt(local).None?
    decreases |local|
  {
    if local != "" {
      assert forall c :: c in local[1..] ==> c in local;
      NoCut(local[1..]);
    }
  }

  lemma DomainMeans(lib: Lib, addr: string, want: string)
    ensures DomainEquals(lib, addr, want) <==> InDomain(lib, addr, want)
  {
    if DomainEquals(lib, addr, want) {
      var local := CutWhere(addr);
      assert addr == local + "@" + AfterAt(addr).value;
    }
    if local, d :| addr == local + "@" + d && '@' !in local && lib.equalFold(d, want) {
      CutAt(local, d);
    }
  }

  lemma FromContainsMeans(lib: Lib, p: string, c: Candidate)
    requires lib.regexCompiles(p)
    ensures EvaluateLeaf(lib, "from_contains", p, c) <==> lib.regexMatches(p, c.from)
  {
    assert [c.from][0] == c.from;
  }

  lemma SubjectContainsMeans(lib: Lib, p: string, c: Candidate)
    requires lib.regexCompiles(p)
    ensures EvaluateLeaf(lib, "subject_contains", p, c) <==> lib.regexMatches(p, c.subject)
  {
    assert [c.subject][0] == c.subject;
  }

  lemma DomainLeafMeans(lib: Lib, kind: string, value: string, t: Test, c: Candidate)
    requires Spells(lib, kind, value, t) && (t.FromDomain? || t.ToDomain?)
    ensures EvaluateLeaf(lib, kind, value, c) <==> Passes(lib, t, c)
  {
    hide DomainEquals, InDomain;
    DomainMeans(lib, c.fromAddr, value);
    forall i | 0 <= i < |c.toAddrs|
      ensures DomainEquals(lib, c.toAddrs[i], value) <==> InDomain(lib, c.toAddrs[i], value)
    {
      DomainMeans(lib, c.toAddrs[i], value);
    }
  }

  lemma OtherLeafMeans(lib: Lib, kind: string, value: string, t: Test, c: Candidate)
    requires Spells(lib, kind, value, t) && !t.FromContains? && !t.SubjectContains? && !t.FromDomain? && !t.ToDomain?
    ensures EvaluateLeaf(lib, kind, value, c) <==> Passes(lib, t, c)
  {
  }

  lemma LeafMeans(lib: Lib, kind: string, value: string, t: Test, c: Candidate)
    requires Spells(lib, kind, value, t)
    ensures EvaluateLeaf(lib, kind, value, c) <==> Passes(lib, t, c)
  {
    hide EvaluateLeaf;
    match t
    case FromContains(p) => FromContainsMeans(lib, p, c);
    case SubjectContains(p) => SubjectContainsMeans(lib, p, c);
    case FromDomain(_) => DomainLeafMeans(lib, kind, value, t, c);
    case ToDomain(_) => DomainLeafMeans(lib, kind, value, t, c);
    case _ => OtherLeafMeans(lib, kind, value, t, c);
  }

  /** A leaf that cannot be read matches nothing: a kind that does not exist, a pattern that
      does not compile, a number, boolean or date that does not parse. */
  lemma UnreadableIsFalse(lib: Lib, kind: string, value: string, c: Candidate)
    requires
      || kind !in {"from_contains", "from_domain", "from_exact", "to_contains", "to_domain", "subject_contains",
                   "has_attachments", "attachment_type", "size_greater_than", "size_less_than", "date_after",
                   "date_before", "folder_is", "folder_is_not", "account_is"}
      || (kind in {"from_contains", "to_contains", "subject_contains"} && !lib.regexCompiles(value))
      || (kind == "has_attachments" && lib.parseBool(value).None?)
      || (kind in {"size_greater_than", "size_less_than", "account_is"} && lib.parseInt(value).None?)
      || (kind in {"date_after", "date_before"} && lib.parseDate(value).None?)
    ensures !EvaluateLeaf(lib, kind, value, c)
  {
  }

  /** Evaluation gives the condition's meaning, in which no leaf can fail to parse. */
  lemma {:induction false} EvaluateMeans(lib: Lib, n: RuleNode, cond: Condition, c: Candidate)
    requires Writes(lib, n, cond)
    ensures Evaluate(lib, n, c) <==> Holds(lib, cond, c)
    decreases n
  {
    match cond
    case Leaf(test) => LeafMeans(lib, n.kind, n.value, test, c);
    case _ =>
      forall i | 0 <= i < |n.children| ensures Evaluate(lib, n.children[i], c) <==> Holds(lib, cond.parts[i], c) {
        EvaluateMeans(lib, n.children[i], cond.parts[i], c);
      }
  }

  // ---------------------------------------------------------------- dry run

  /** What mimeparse found in a message. `date` is an instant in nanoseconds. */
  datatype Metadata = Metadata(from: Option<Address>, to: seq<Address>, cc: seq<Address>, subject: string,
                               date: int, attachments: seq<string>, size: int)

  /** The instant of Go's zero time.Time. */
  const ZERO_TIME: int := -62135596800 * SECOND

  const SECOND := 1_000_000_000

  function Printed(lib: Lib, addrs: seq<Address>): seq<string> {
    seq(|addrs|, i requires 0 <= i < |addrs| => lib.printAddress(addrs[i]))
  }

  function Bare(addrs: seq<Address>): seq<string> {
    seq(|addrs|, i requires 0 <= i < |addrs| => addrs[i].addr)
  }

  /** `candidateFrom` */
  function Live(lib: Lib, m: Metadata, folderName: string, accountId: int): Candidate {
    Candidate(if m.from.Some? then lib.printAddress(m.from.value) else "",
              if m.from.Some? then m.from.value.addr else "",
              Printed(lib, m.to), Bare(m.to), Printed(lib, m.cc), Bare(m.cc), m.subject, |m.attachments| > 0,
              m.attachments, m.size, m.date, folderName, accountId)
  }

  /** The stored columns: printed addresses, and the date to the second or NULL. */
  datatype Email = Email(fromAddr: string, toAddrs: seq<string>, ccAddrs: seq<string>, subject: string,
                         date: Option<int>, size: int, hasAttachments: bool, mimeTypes: seq<string>, accountId: int)

  function Stored(lib: Lib, m: Metadata, accountId: int): Email {
    Email(if m.from.Some? then lib.printAddress(m.from.value) else "",
          Printed(lib, m.to), Printed(lib, m.cc), m.subject,
          if m.date == ZERO_TIME then None else Some(m.date / SECOND),
          m.size, |m.attachments| > 0, m.attachments, accountId)
  }

  function BareAddress(lib: Lib, full: string): string {
    if full == "" then "" else if lib.parseAddress(full).Some? then lib.parseAddress(full).value.addr else full
  }

  function BareAddresses(lib: Lib, full: seq<string>): seq<string> {
    seq(|full|, i requires 0 <= i < |full| => BareAddress(lib, full[i]))
  }

  /** `BuildCandidateFromStored` */
  function Rebuilt(lib: Lib, e: Email, folderName: string): Candidate {
    Candidate(e.fromAddr, BareAddress(lib, e.fromAddr),
              e.toAddrs, BareAddresses(lib, e.toAddrs), e.ccAddrs, BareAddresses(lib, e.ccAddrs),
              e.subject, e.hasAttachments, e.mimeTypes, e.size,
              if e.date.Some? then e.date.value * SECOND else ZERO_TIME,
              folderName, e.accountId)
  }

  /** Printing the address and parsing it again gives the bare address back. */
  predicate Survives(lib: Lib, a: Address) {
    var full := lib.printAddress(a);
    match lib.parseAddress(full)
    case Some(parsed) => if full == "" then a.addr == "" else parsed.addr == a.addr
    case None => full == a.addr
  }

  predicate AllSurvive(lib: Lib, addrs: seq<Address>) {
    forall i :: 0 <= i < |addrs| ==> Survives(lib, addrs[i])
  }

  lemma BareSurvivesIff(lib: Lib, addrs: seq<Address>)
    ensures BareAddresses(lib, Printed(lib, addrs)) == Bare(addrs) <==> AllSurvive(lib, addrs)
  {
    var got, want := BareAddresses(lib, Printed(lib, addrs)), Bare(addrs);
    assert forall i :: 0 <= i < |addrs| ==> (got[i] == want[i] <==> Survives(lib, addrs[i]));
  }

  /** For an email that stays in its folder, the rebuilt candidate is the live one exactly
      when every address survives printing and parsing and the date is a whole second. */
  lemma RebuiltIsLiveIff(lib: Lib, m: Metadata, folderName: string, accountId: int)
    ensures Rebuilt(lib, Stored(lib, m, accountId), folderName) == Live(lib, m, folderName, accountId) <==>
            && (m.from.Some? ==> Survives(lib, m.from.value)) && AllSurvive(lib, m.to) && AllSurvive(lib, m.cc)
            && m.date % SECOND == 0
  {
    BareSurvivesIff(lib, m.to);
    BareSurvivesIff(lib, m.cc);
    assert m.date == m.date / SECOND * SECOND + m.date % SECOND;
  }

  /** So a dry run of any tree then answers what the live evaluation answered. */
  lemma DryRunAgrees(lib: Lib, m: Metadata, folderName: string, accountId: int, n: RuleNode)
    requires (m.from.Some? ==> Survives(lib, m.from.value)) && AllSurvive(lib, m.to) && AllSurvive(lib, m.cc) &&
      m.date % SECOND == 0
    ensures Evaluate(lib, n, Rebuilt(lib, Stored(lib, m, accountId), folderName)) <==>
      Evaluate(lib, n, Live(lib, m, folderName, accountId))
  {
    RebuiltIsLiveIff(lib, m, folderName, accountId);
  }
}
