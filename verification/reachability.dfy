/** The protocol's guards can all be met: a run from an empty database to a signed document. */
module Reachability {
  import opened Records
  import opened RequestService
  import opened Protocol

  const OWNER: Id := 7
  const DEVICE: Id := 5

  function Begin(): Db {
    Protocol.Db(map[], map[], map[], map[0 := Document(Some(OWNER), "digest")], map[0 := OWNER], {})
  }

  function Script(): seq<Op> {
    [ View(0, 0),
      Create(3, 0, 0, DEVICE, 10, 10, 10),
      Protocol.Claim(DEVICE, 20, {}, Some(3)),
      Challenge(4, DEVICE, OWNER, "card", 0, "challenge", 30, Some(3), 30),
      Complete(4, 3, 40, 40, 40),
      Sign(6, 4, 3, 50, 50, 50, 50) ]
  }

  lemma RequestIsClaimed()
    ensures Enabled(Begin(), Script()[0])
    ensures var viewed := Apply(Begin(), Script()[0]);
      && Enabled(viewed, Script()[1])
      && var created := Apply(viewed, Script()[1]);
      && Enabled(created, Script()[2])
      && var claimed := Apply(created, Script()[2]);
      && claimed.sessions == map[] && claimed.signatures == map[] && claimed.documents == Begin().documents
      && claimed.requests == map[3 := RequestService.Claim(
           NewRequest(0, OWNER, DEVICE, 0, "digest", 10, CONSENT_VERSION, 10, 10), 20)]
  {
    var created := Apply(Apply(Begin(), Script()[0]), Script()[1]);
    assert InFlight(created.requests, DEVICE) == {};
    assert ExpireAll(created.requests, {}, 20) == created.requests;
  }

  lemma ClaimedRequestIsSigned(db: Db)
    requires db.sessions == map[] && db.signatures == map[] && db.documents == Begin().documents
    requires db.requests == map[3 := RequestService.Claim(
      NewRequest(0, OWNER, DEVICE, 0, "digest", 10, CONSENT_VERSION, 10, 10), 20)]
    ensures Enabled(db, Script()[3])
    ensures var challenged := Apply(db, Script()[3]);
      && Enabled(challenged, Script()[4])
      && var authenticated := Apply(challenged, Script()[4]);
      && Enabled(authenticated, Script()[5])
      && var signed := Apply(authenticated, Script()[5]);
      && 3 in signed.requests && signed.requests[3].status == Signed
  {
    ConsentHasText();
  }

  /** A document can be signed: every stage of the protocol is reachable. */
  lemma SigningIsReachable() returns (db: Db, ops: seq<Op>, db': Db)
    ensures Empty(db) && Serial(db, ops, db')
    ensures 3 in db'.requests && db'.requests[3].status == Signed
  {
    db, ops := Begin(), Script();
    RequestIsClaimed();
    var d1 := Apply(db, ops[0]);
    var d2 := Apply(d1, ops[1]);
    var d3 := Apply(d2, ops[2]);
    ClaimedRequestIsSigned(d3);
    var d4 := Apply(d3, ops[3]);
    var d5 := Apply(d4, ops[4]);
    db' := Apply(d5, ops[5]);
    assert Serial(db', [], db');
    assert Serial(d5, [ops[5]], db');
    assert Serial(d4, [ops[4], ops[5]], db') by { assert [ops[4], ops[5]][1..] == [ops[5]]; }
    assert Serial(d3, ops[3..], db') by {
      assert ops[3..] == [ops[3], ops[4], ops[5]] && ops[3..][1..] == [ops[4], ops[5]];
    }
    assert Serial(d2, ops[2..], db') by { assert ops[2..][0] == ops[2] && ops[2..][1..] == ops[3..]; }
    assert Serial(d1, ops[1..], db') by { assert ops[1..][0] == ops[1] && ops[1..][1..] == ops[2..]; }
  }
}
