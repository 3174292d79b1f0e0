/**
 * The P-256 modulus and the order of the group are prime: the certificate data. Each `Prime` lemma closes one link of the chain,
 * from a 256-bit number down to three-digit primes settled by trial division; each `Power` lemma
 * checks b^q = 1 modulo n by square-and-multiply, two exponent bits at a time.
 */
module P256Prime {
  import opened NumberTheory
  import opened Pocklington
  import opened P256Field

  lemma Prime5()
    ensures IsPrime(5)
  {
    assert !Divides(2, 5);
    TrialDivision(5, 2);
  }

  lemma Prime107()
    ensures IsPrime(107)
  {
    assert !Divides(2, 107) && !Divides(3, 107) && !Divides(4, 107) && !Divides(5, 107) && !Divides(6, 107)
      && !Divides(7, 107) && !Divides(8, 107) && !Divides(9, 107) && !Divides(10, 107);
    TrialDivision(107, 10);
  }

  lemma Prime157()
    ensures IsPrime(157)
  {
    assert !Divides(2, 157) && !Divides(3, 157) && !Divides(4, 157) && !Divides(5, 157) && !Divides(6, 157)
      && !Divides(7, 157) && !Divides(8, 157) && !Divides(9, 157) && !Divides(10, 157) && !Divides(11, 157)
      && !Divides(12, 157);
    TrialDivision(157, 12);
  }

  lemma Prime181()
    ensures IsPrime(181)
  {
    assert !Divides(2, 181) && !Divides(3, 181) && !Divides(4, 181) && !Divides(5, 181) && !Divides(6, 181)
      && !Divides(7, 181) && !Divides(8, 181) && !Divides(9, 181) && !Divides(10, 181) && !Divides(11, 181)
      && !Divides(12, 181) && !Divides(13, 181);
    TrialDivision(181, 13);
  }

  lemma Prime313()
    ensures IsPrime(313)
  {
    assert !Divides(2, 313) && !Divides(3, 313) && !Divides(4, 313) && !Divides(5, 313) && !Divides(6, 313)
      && !Divides(7, 313) && !Divides(8, 313) && !Divides(9, 313) && !Divides(10, 313) && !Divides(11, 313)
      && !Divides(12, 313) && !Divides(13, 313) && !Divides(14, 313) && !Divides(15, 313) && !Divides(16, 313)
      && !Divides(17, 313);
    TrialDivision(313, 17);
  }

  lemma Power3769()
    ensures PowerIs(0xeb9, 0x575, 0x9d, 0x1)
  {
    hide *;
    var n, b := 0xeb9, 0x575;
    var b2, b3 := 0xbdc, 0x48f;
    SmallPowers(n, b, b2, b3);
    var e: nat := 0;
    e := TwoBits(n, b, e, 0x1, 2, b2, 0xbdc);
    e := TwoBits(n, b, e, 0xbdc, 1, b, 0x4d4);
    e := TwoBits(n, b, e, 0x4d4, 3, b3, 0x212);
    e := TwoBits(n, b, e, 0x212, 1, b, 0x1);
  }

  lemma Prime3769()
    ensures IsPrime(0xeb9)
  {
    hide IsPrime, PowerIs;
    Prime157();
    Power3769();
    Certify(0xeb9, 0x9d, 0x575, 0x76a);
  }

  lemma Power1087()
    ensures PowerIs(0x43f, 0x40, 0xb5, 0x1)
  {
    hide *;
    var n, b := 0x43f, 0x40;
    var b2, b3 := 0x343, 0xb1;
    SmallPowers(n, b, b2, b3);
    var e: nat := 0;
    e := TwoBits(n, b, e, 0x1, 2, b2, 0x343);
    e := TwoBits(n, b, e, 0x343, 3, b3, 0x290);
    e := TwoBits(n, b, e, 0x290, 1, b, 0x118);
    e := TwoBits(n, b, e, 0x118, 1, b, 0x1);
  }

  lemma Prime1087()
    ensures IsPrime(0x43f)
  {
    hide IsPrime, PowerIs;
    Prime181();
    Power1087();
    Certify(0x43f, 0xb5, 0x40, 0x3fa);
  }

  lemma Power4349()
    ensures PowerIs(0x10fd, 0x10, 0x43f, 0x1)
  {
    hide *;
    var n, b := 0x10fd, 0x10;
    var b2, b3 := 0x100, 0x1000;
    SmallPowers(n, b, b2, b3);
    var e: nat := 0;
    e := TwoBits(n, b, e, 0x1, 1, b, 0x10);
    e := TwoBits(n, b, e, 0x10, 0, 1, 0x12d);
    e := TwoBits(n, b, e, 0x12d, 0, 1, 0xeab);
    e := TwoBits(n, b, e, 0xeab, 3, b3, 0xa46);
    e := TwoBits(n, b, e, 0xa46, 3, b3, 0x10b1);
    e := TwoBits(n, b, e, 0x10b1, 3, b3, 0x1);
  }

  lemma Prime4349()
    ensures IsPrime(0x10fd)
  {
    hide IsPrime, PowerIs;
    Prime1087();
    Power4349();
    Certify(0x10fd, 0x43f, 0x10, 0x122);
  }

  lemma Power78283()
    ensures PowerIs(0x131cb, 0x6a9f, 0x10fd, 0x1)
  {
    hide *;
    var n, b := 0x131cb, 0x6a9f;
    var b2, b3 := 0x128dd, 0x11ef8;
    SmallPowers(n, b, b2, b3);
    var e: nat := 0;
    e := TwoBits(n, b, e, 0x1, 1, b, 0x6a9f);
    e := TwoBits(n, b, e, 0x6a9f, 0, 1, 0xe6ee);
    e := TwoBits(n, b, e, 0xe6ee, 0, 1, 0x5b6f);
    e := TwoBits(n, b, e, 0x5b6f, 3, b3, 0x526f);
    e := TwoBits(n, b, e, 0x526f, 3, b3, 0x42f8);
    e := TwoBits(n, b, e, 0x42f8, 3, b3, 0xf78a);
    e := TwoBits(n, b, e, 0xf78a, 1, b, 0x1);
  }

  lemma Prime78283()
    ensures IsPrime(0x131cb)
  {
    hide IsPrime, PowerIs;
    Prime4349();
    Power78283();
    Certify(0x131cb, 0x10fd, 0x6a9f, 0xb0fc);
  }

  lemma Power704251A()
    ensures PowerIs(0xabefb, 0x244d1, 0x139, 0x1)
  {
    hide *;
    var n, b := 0xabefb, 0x244d1;
    var b2, b3 := 0x8b7c1, 0xed86;
    SmallPowers(n, b, b2, b3);
    var e: nat := 0;
    e := TwoBits(n, b, e, 0x1, 1, b, 0x244d1);
    e := TwoBits(n, b, e, 0x244d1, 0, 1, 0x2324);
    e := TwoBits(n, b, e, 0x2324, 3, b3, 0x99017);
    e := TwoBits(n, b, e, 0x99017, 2, b2, 0x76c64);
    e := TwoBits(n, b, e, 0x76c64, 1, b, 0x1);
  }

  lemma Power704251B()
    ensures PowerIs(0xabefb, 0x8c557, 0x5, 0x1)
  {
    hide *;
    var n, b := 0xabefb, 0x8c557;
    var b2, b3 := 0x331c0, 0x86275;
    SmallPowers(n, b, b2, b3);
    var e: nat := 0;
    e := TwoBits(n, b, e, 0x1, 1, b, 0x8c557);
    e := TwoBits(n, b, e, 0x8c557, 1, b, 0x1);
  }

  lemma Prime704251()
    ensures IsPrime(0xabefb)
  {
    hide IsPrime, PowerIs;
    Prime313();
    Prime5();
    Power704251A();
    Power704251B();
    CertifyTwo(0xabefb,
      0x139, 0x244d1, 0x7d07f,
      0x5, 0x8c557, 0x4ad94);
  }

  lemma Power204061199A()
    ensures PowerIs(0xc29ba0f, 0x37bdd17, 0xeb9, 0x1)
  {
    hide *;
    var n, b := 0xc29ba0f, 0x37bdd17;
    var b2, b3 := 0xb5b4a68, 0x8f92c0c;
    SmallPowers(n, b, b2, b3);
    var e: nat := 0;
    e := TwoBits(n, b, e, 0x1, 3, b3, 0x8f92c0c);
    e := TwoBits(n, b, e, 0x8f92c0c, 2, b2, 0x5bca66b);
    e := TwoBits(n, b, e, 0x5bca66b, 2, b2, 0x548b6bf);
    e := TwoBits(n, b, e, 0x548b6bf, 3, b3, 0x6a73154);
    e := TwoBits(n, b, e, 0x6a73154, 2, b2, 0x666a0be);
    e := TwoBits(n, b, e, 0x666a0be, 1, b, 0x1);
  }

  lemma Power204061199B()
    ensures PowerIs(0xc29ba0f, 0x6f2189d, 0x6b, 0x1)
  {
    hide *;
    var n, b := 0xc29ba0f, 0x6f2189d;
    var b2, b3 := 0x422cc3, 0xab5b10;
    SmallPowers(n, b, b2, b3);
    var e: nat := 0;
    e := TwoBits(n, b, e, 0x1, 1, b, 0x6f2189d);
    e := TwoBits(n, b, e, 0x6f2189d, 2, b2, 0x6e44f6b);
    e := TwoBits(n, b, e, 0x6e44f6b, 2, b2, 0x98fa89e);
    e := TwoBits(n, b, e, 0x98fa89e, 3, b3, 0x1);
  }

  lemma Prime204061199()
    ensures IsPrime(0xc29ba0f)
  {
    hide IsPrime, PowerIs;
    Prime3769();
    Prime107();
    Power204061199A();
    Power204061199B();
    CertifyTwo(0xc29ba0f,
      0xeb9, 0x37bdd17, 0x67c75d5,
      0x6b, 0x6f2189d, 0x434a49b);
  }

  lemma Power35Bit()
    ensures PowerIs(0x7fb6219d9, 0x6f58fce4b, 0xc29ba0f, 0x1)
  {
    hide *;
    var n, b := 0x7fb6219d9, 0x6f58fce4b;
    var b2, b3 := 0x5a7ec3829, 0x35490224e;
    SmallPowers(n, b, b2, b3);
    var e: nat := 0;
    e := TwoBits(n, b, e, 0x1, 3, b3, 0x35490224e);
    e := TwoBits(n, b, e, 0x35490224e, 0, 1, 0x445bd8dcc);
    e := TwoBits(n, b, e, 0x445bd8dcc, 0, 1, 0x3bf16ac2);
    e := TwoBits(n, b, e, 0x3bf16ac2, 2, b2, 0x7c855b55b);
    e := TwoBits(n, b, e, 0x7c855b55b, 2, b2, 0x3fb9b71e);
    e := TwoBits(n, b, e, 0x3fb9b71e, 1, b, 0x36548387b);
    e := TwoBits(n, b, e, 0x36548387b, 2, b2, 0x6b41693e4);
    e := TwoBits(n, b, e, 0x6b41693e4, 3, b3, 0x303f06530);
    e := TwoBits(n, b, e, 0x303f06530, 2, b2, 0x7ca176058);
    e := TwoBits(n, b, e, 0x7ca176058, 2, b2, 0x1a8ee7319);
    e := TwoBits(n, b, e, 0x1a8ee7319, 0, 1, 0x5d25e92df);
    e := TwoBits(n, b, e, 0x5d25e92df, 0, 1, 0xe1cb86c0);
    e := TwoBits(n, b, e, 0xe1cb86c0, 3, b3, 0x3cb5efa1a);
    e := TwoBits(n, b, e, 0x3cb5efa1a, 3, b3, 0x1);
  }

  lemma Prime35Bit()
    ensures IsPrime(0x7fb6219d9)
  {
    hide IsPrime, PowerIs;
    Prime204061199();
    Power35Bit();
    Certify(0x7fb6219d9, 0xc29ba0f, 0x6f58fce4b, 0x1534f87ca);
  }

  lemma Power56BitA()
    ensures PowerIs(0xa3b2bf8c32ceaf, 0x3505c3c9f91b61, 0xabefb, 0x1)
  {
    hide *;
    var n, b := 0xa3b2bf8c32ceaf, 0x3505c3c9f91b61;
    var b2, b3 := 0x8cbe1b34991644, 0x41e68168ee957e;
    SmallPowers(n, b, b2, b3);
    var e: nat := 0;
    e := TwoBits(n, b, e, 0x1, 2, b2, 0x8cbe1b34991644);
    e := TwoBits(n, b, e, 0x8cbe1b34991644, 2, b2, 0x95cb9374ff9652);
    e := TwoBits(n, b, e, 0x95cb9374ff9652, 2, b2, 0xa00c73a30185d8);
    e := TwoBits(n, b, e, 0xa00c73a30185d8, 3, b3, 0x1e650060001798);
    e := TwoBits(n, b, e, 0x1e650060001798, 3, b3, 0x59da78a3bc011b);
    e := TwoBits(n, b, e, 0x59da78a3bc011b, 2, b2, 0x83da0fad19f685);
    e := TwoBits(n, b, e, 0x83da0fad19f685, 3, b3, 0x26674a953b7999);
    e := TwoBits(n, b, e, 0x26674a953b7999, 3, b3, 0x61123dd42b18b2);
    e := TwoBits(n, b, e, 0x61123dd42b18b2, 2, b2, 0x26975861391d23);
    e := TwoBits(n, b, e, 0x26975861391d23, 3, b3, 0x1);
  }

  lemma Power56BitB()
    ensures PowerIs(0xa3b2bf8c32ceaf, 0x5e0ec2c5d65225, 0x131cb, 0x1)
  {
    hide *;
    var n, b := 0xa3b2bf8c32ceaf, 0x5e0ec2c5d65225;
    var b2, b3 := 0x9cf4feec3e95eb, 0x77cdb3be1391d6;
    SmallPowers(n, b, b2, b3);
    var e: nat := 0;
    e := TwoBits(n, b, e, 0x1, 1, b, 0x5e0ec2c5d65225);
    e := TwoBits(n, b, e, 0x5e0ec2c5d65225, 0, 1, 0x3a77c06fd69988);
    e := TwoBits(n, b, e, 0x3a77c06fd69988, 3, b3, 0x73f2b8fdbb7773);
    e := TwoBits(n, b, e, 0x73f2b8fdbb7773, 0, 1, 0x574330a6c7f55);
    e := TwoBits(n, b, e, 0x574330a6c7f55, 1, b, 0x2284c341297a3f);
    e := TwoBits(n, b, e, 0x2284c341297a3f, 3, b3, 0x46c32ba4e1063e);
    e := TwoBits(n, b, e, 0x46c32ba4e1063e, 0, 1, 0x33d547eaba2898);
    e := TwoBits(n, b, e, 0x33d547eaba2898, 2, b2, 0x72df9c1a4aaf4b);
    e := TwoBits(n, b, e, 0x72df9c1a4aaf4b, 3, b3, 0x1);
  }

  lemma Prime56Bit()
    ensures IsPrime(0xa3b2bf8c32ceaf)
  {
    hide IsPrime, PowerIs;
    Prime704251();
    Prime78283();
    Power56BitA();
    Power56BitB();
    CertifyTwo(0xa3b2bf8c32ceaf,
      0xabefb, 0x3505c3c9f91b61, 0x3382d1c86f8bb8,
      0x131cb, 0x5e0ec2c5d65225, 0x93a72f8843276b);
  }

  lemma Power150BitA()
    ensures PowerIs(0x22b559b5c816ae00f2378e18df38c5410ed597, 0xac1f69987a98cd70795a5538e728fc5b374b2, 0xa3b2bf8c32ceaf, 0x1)
  {
    hide *;
    var n, b := 0x22b559b5c816ae00f2378e18df38c5410ed597, 0xac1f69987a98cd70795a5538e728fc5b374b2;
    var b2, b3 := 0x81be818209fb696ac209a42eec5f3870ae3b0, 0x1d91b4b3e4ac8419a3bd1c71904cbf09c2541;
    SmallPowers(n, b, b2, b3);
    var e: nat := 0;
    e := TwoBits(n, b, e, 0x1, 2, b2, 0x81be818209fb696ac209a42eec5f3870ae3b0);
    e := TwoBits(n, b, e, 0x81be818209fb696ac209a42eec5f3870ae3b0, 2, b2, 0x11cc40adca75ff42f7a1b6f8d895a620b6a2c7);
    e := TwoBits(n, b, e, 0x11cc40adca75ff42f7a1b6f8d895a620b6a2c7, 0, 1, 0x11f993ab8450fec4ed6e9f7d6355f378bc518f);
    e := TwoBits(n, b, e, 0x11f993ab8450fec4ed6e9f7d6355f378bc518f, 3, b3, 0x94a8d0f62f99d4fbe36956cb97facf4e43d7);
    e := TwoBits(n, b, e, 0x94a8d0f62f99d4fbe36956cb97facf4e43d7, 2, b2, 0x671c35181856a6d65252d9e5b302c2296ba32);
    e := TwoBits(n, b, e, 0x671c35181856a6d65252d9e5b302c2296ba32, 3, b3, 0x4f78a57b0a41fd256c396086d6fc6827cd9d2);
    e := TwoBits(n, b, e, 0x4f78a57b0a41fd256c396086d6fc6827cd9d2, 0, 1, 0x1c049be6a7eecaad5bbe82da82129e31e60e5c);
    e := TwoBits(n, b, e, 0x1c049be6a7eecaad5bbe82da82129e31e60e5c, 2, b2, 0x4d79887f892047f45d5c667bced5d05bd166d);
    e := TwoBits(n, b, e, 0x4d79887f892047f45d5c667bced5d05bd166d, 2, b2, 0x1e7b7d4a1aa9215e30fbbc09df5e3fc65e1dbf);
    e := TwoBits(n, b, e, 0x1e7b7d4a1aa9215e30fbbc09df5e3fc65e1dbf, 3, b3, 0x124b09ae0de628908d291de9559a88c10c9fa3);
    e := TwoBits(n, b, e, 0x124b09ae0de628908d291de9559a88c10c9fa3, 3, b3, 0x205721eb425d4d9799d585b635a3f0caf47cf);
    e := TwoBits(n, b, e, 0x205721eb425d4d9799d585b635a3f0caf47cf, 3, b3, 0x1ce01bc1be0b78f444675572ad7dcc95c9487d);
    e := TwoBits(n, b, e, 0x1ce01bc1be0b78f444675572ad7dcc95c9487d, 2, b2, 0x1725c824c8e1a6879237ab0662707a6a5db862);
    e := TwoBits(n, b, e, 0x1725c824c8e1a6879237ab0662707a6a5db862, 0, 1, 0xbb1af442a5bcfe76acde185f7f3485942d975);
    e := TwoBits(n, b, e, 0xbb1af442a5bcfe76acde185f7f3485942d975, 3, b3, 0xbd7fbb8dce9da197be5190dfcbfff6c76f3a4);
    e := TwoBits(n, b, e, 0xbd7fbb8dce9da197be5190dfcbfff6c76f3a4, 0, 1, 0xd092b2bed262b3b6f4162ac70d1593c75d8c7);
    e := TwoBits(n, b, e, 0xd092b2bed262b3b6f4162ac70d1593c75d8c7, 0, 1, 0x1440706cf9a6453577885c4dce491c6ba29273);
    e := TwoBits(n, b, e, 0x1440706cf9a6453577885c4dce491c6ba29273, 3, b3, 0x33fdec163e38e4341ddb4eea82d6b44be926);
    e := TwoBits(n, b, e, 0x33fdec163e38e4341ddb4eea82d6b44be926, 0, 1, 0x983e8b9af1ff142837dbb926ff32504da4c55);
    e := TwoBits(n, b, e, 0x983e8b9af1ff142837dbb926ff32504da4c55, 2, b2, 0x13371a982d6e5da15341e9af00580604ac4e63);
    e := TwoBits(n, b, e, 0x13371a982d6e5da15341e9af00580604ac4e63, 3, b3, 0x80bb243f173ec20ec08551cde7b07237bfb5e);
    e := TwoBits(n, b, e, 0x80bb243f173ec20ec08551cde7b07237bfb5e, 0, 1, 0x1b4e396ff133ee193fc495dd856c6da10a40a6);
    e := TwoBits(n, b, e, 0x1b4e396ff133ee193fc495dd856c6da10a40a6, 3, b3, 0x125cb401fca8ea7dbe52ac2eb4d3cf6db7080b);
    e := TwoBits(n, b, e, 0x125cb401fca8ea7dbe52ac2eb4d3cf6db7080b, 2, b2, 0xc0d48926be040316f9326217f75dfb4b873ca);
    e := TwoBits(n, b, e, 0xc0d48926be040316f9326217f75dfb4b873ca, 2, b2, 0x13d7484ddd8e55481a4611d54cb20b52a29673);
    e := TwoBits(n, b, e, 0x13d7484ddd8e55481a4611d54cb20b52a29673, 2, b2, 0x22a07f38e2979c34a7a04f69ebe809984b661b);
    e := TwoBits(n, b, e, 0x22a07f38e2979c34a7a04f69ebe809984b661b, 3, b3, 0x10c8af04c8eaa6b92dd49f95c47b138a742259);
    e := TwoBits(n, b, e, 0x10c8af04c8eaa6b92dd49f95c47b138a742259, 3, b3, 0x1);
  }

  lemma Power150BitB()
    ensures PowerIs(0x22b559b5c816ae00f2378e18df38c5410ed597, 0x1f4cfb5c1753681057167b61d5b00d91760efc, 0x7fb6219d9, 0x1)
  {
    hide *;
    var n, b := 0x22b559b5c816ae00f2378e18df38c5410ed597, 0x1f4cfb5c1753681057167b61d5b00d91760efc;
    var b2, b3 := 0x19fcb060c6bb53d40a7dda03fddd2588ad5989, 0x1ac9282e0d49b469cd34d0ea1a548a4ea25875;
    SmallPowers(n, b, b2, b3);
    var e: nat := 0;
    e := TwoBits(n, b, e, 0x1, 1, b, 0x1f4cfb5c1753681057167b61d5b00d91760efc);
    e := TwoBits(n, b, e, 0x1f4cfb5c1753681057167b61d5b00d91760efc, 3, b3, 0xf308ccbed050854dfcfed5c7775d5d839b5e5);
    e := TwoBits(n, b, e, 0xf308ccbed050854dfcfed5c7775d5d839b5e5, 3, b3, 0x15858398c909bcd47d672490c4bfcd646c13ad);
    e := TwoBits(n, b, e, 0x15858398c909bcd47d672490c4bfcd646c13ad, 3, b3, 0x13c12a6954530b9d0d67d3747ab8a15fb40e6d);
    e := TwoBits(n, b, e, 0x13c12a6954530b9d0d67d3747ab8a15fb40e6d, 2, b2, 0x6e3b5c09c829c6dd2e570e2535b6556cd6977);
    e := TwoBits(n, b, e, 0x6e3b5c09c829c6dd2e570e2535b6556cd6977, 3, b3, 0x11674ab89cb4283df7fd88606f4fe99917e0a1);
    e := TwoBits(n, b, e, 0x11674ab89cb4283df7fd88606f4fe99917e0a1, 1, b, 0x301e33173824428723f02ab423ef2e45a097a);
    e := TwoBits(n, b, e, 0x301e33173824428723f02ab423ef2e45a097a, 2, b2, 0x1a34cc195e03f136fb3d14b8b763b932dfe9c5);
    e := TwoBits(n, b, e, 0x1a34cc195e03f136fb3d14b8b763b932dfe9c5, 0, 1, 0xc71394a6e00efcd7829caf17f5383c816562d);
    e := TwoBits(n, b, e, 0xc71394a6e00efcd7829caf17f5383c816562d, 2, b2, 0x8e975eba1c98248542fd1ea335654ab24f542);
    e := TwoBits(n, b, e, 0x8e975eba1c98248542fd1ea335654ab24f542, 0, 1, 0x1a9288ceb51c20f02638e2dd538df1f32b4f03);
    e := TwoBits(n, b, e, 0x1a9288ceb51c20f02638e2dd538df1f32b4f03, 1, b, 0xf2936e0ca0b1b4fd229f93bb05c29cac42cff);
    e := TwoBits(n, b, e, 0xf2936e0ca0b1b4fd229f93bb05c29cac42cff, 2, b2, 0x1798433c515255b685797d178cd77bff884c68);
    e := TwoBits(n, b, e, 0x1798433c515255b685797d178cd77bff884c68, 1, b, 0x15ccf9ad03e7a7631c8076bdc84615e7e58fcc);
    e := TwoBits(n, b, e, 0x15ccf9ad03e7a7631c8076bdc84615e7e58fcc, 3, b3, 0x22afbf09232384d67fd766b5891dd53a1505b5);
    e := TwoBits(n, b, e, 0x22afbf09232384d67fd766b5891dd53a1505b5, 1, b, 0x4ee8ea21aab5a3d2c23b794e6335e20f53b8a);
    e := TwoBits(n, b, e, 0x4ee8ea21aab5a3d2c23b794e6335e20f53b8a, 2, b2, 0x1e346b81c4a2773f65eb3eba75447757301d38);
    e := TwoBits(n, b, e, 0x1e346b81c4a2773f65eb3eba75447757301d38, 1, b, 0x1);
  }

  lemma Prime150Bit()
    ensures IsPrime(0x22b559b5c816ae00f2378e18df38c5410ed597)
  {
    hide IsPrime, PowerIs;
    Prime56Bit();
    Prime35Bit();
    Power150BitA();
    Power150BitB();
    CertifyTwo(0x22b559b5c816ae00f2378e18df38c5410ed597,
      0xa3b2bf8c32ceaf, 0xac1f69987a98cd70795a5538e728fc5b374b2, 0x1c57608cca63bd0dec0bb61f90d77cc342f96e,
      0x7fb6219d9, 0x1f4cfb5c1753681057167b61d5b00d91760efc, 0x1abeb8e5da6ec819af61ce1a5b9f326e02c801);
  }

  lemma Power160BitHalf()
    ensures PowerIs(0x926d1276e41fae13fdda5f78edb7802a76951509, 0x84f6174410b13b7c641bfb1c0429a24ea8e8db82, 0x22b559b5c816ae00f23, 0x8118fed6ae80bb618d8c65ba5ff317be319aa317)
  {
    hide *;
    var n, b := 0x926d1276e41fae13fdda5f78edb7802a76951509, 0x84f6174410b13b7c641bfb1c0429a24ea8e8db82;
    var b2, b3 := 0x716368c5f08bdf6c4943d9ea39b018559b764a64, 0x86aed9f85f35738339a8214df50647034a0618b2;
    SmallPowers(n, b, b2, b3);
    var e: nat := 0;
    e := TwoBits(n, b, e, 0x1, 2, b2, 0x716368c5f08bdf6c4943d9ea39b018559b764a64);
    e := TwoBits(n, b, e, 0x716368c5f08bdf6c4943d9ea39b018559b764a64, 0, 1, 0x4c80de5574152e7ca5b9f82e5533ff723d93fd2a);
    e := TwoBits(n, b, e, 0x4c80de5574152e7ca5b9f82e5533ff723d93fd2a, 2, b2, 0x3045d9bf8b8266961c7236aeaa8042b2cd320efe);
    e := TwoBits(n, b, e, 0x3045d9bf8b8266961c7236aeaa8042b2cd320efe, 2, b2, 0x70483f8dfaf875e2771b5d5c41c2f5a08daac07c);
    e := TwoBits(n, b, e, 0x70483f8dfaf875e2771b5d5c41c2f5a08daac07c, 3, b3, 0x749a0c98ecfbbf2c692e17d8cbe57473d9bdf024);
    e := TwoBits(n, b, e, 0x749a0c98ecfbbf2c692e17d8cbe57473d9bdf024, 1, b, 0x27d7d500a81bff0dcdf4105012396383e4f4fe8f);
    e := TwoBits(n, b, e, 0x27d7d500a81bff0dcdf4105012396383e4f4fe8f, 1, b, 0x35a484198144c5f52614610266ddcda1bffc53e3);
    e := TwoBits(n, b, e, 0x35a484198144c5f52614610266ddcda1bffc53e3, 1, b, 0x99e37b24122fd35adc1752ce79446601e50b59);
    e := TwoBits(n, b, e, 0x99e37b24122fd35adc1752ce79446601e50b59, 1, b, 0x3dd0e0023af003206819acc3ab3c53e66376ae98);
    e := TwoBits(n, b, e, 0x3dd0e0023af003206819acc3ab3c53e66376ae98, 2, b2, 0x868d3a8f713c5ef2da912b7163d15a8a0f850630);
    e := TwoBits(n, b, e, 0x868d3a8f713c5ef2da912b7163d15a8a0f850630, 1, b, 0x62deed42c42f9332dce46eee14c9dd7664e3a98e);
    e := TwoBits(n, b, e, 0x62deed42c42f9332dce46eee14c9dd7664e3a98e, 2, b2, 0x8ac6af38e4b788a8b17ba3e658061d05b8b5e666);
    e := TwoBits(n, b, e, 0x8ac6af38e4b788a8b17ba3e658061d05b8b5e666, 3, b3, 0x3698856517d819f3c4696517c8c53c5494b6132e);
    e := TwoBits(n, b, e, 0x3698856517d819f3c4696517c8c53c5494b6132e, 1, b, 0x9102c1d86ea19c9ec7e237a39f7c3f1da1cc8e21);
    e := TwoBits(n, b, e, 0x9102c1d86ea19c9ec7e237a39f7c3f1da1cc8e21, 1, b, 0x6482fcad59b482543add58d123cd79f10200ddaf);
    e := TwoBits(n, b, e, 0x6482fcad59b482543add58d123cd79f10200ddaf, 3, b3, 0x8331b22c010952ca24b949e3ffe0812a6aca4179);
    e := TwoBits(n, b, e, 0x8331b22c010952ca24b949e3ffe0812a6aca4179, 0, 1, 0x2982cff87dc61b9b8a243f8da3afaa81081679ac);
    e := TwoBits(n, b, e, 0x2982cff87dc61b9b8a243f8da3afaa81081679ac, 2, b2, 0x123eab7e9fa8b5e85f728a494179895818667be3);
    e := TwoBits(n, b, e, 0x123eab7e9fa8b5e85f728a494179895818667be3, 0, 1, 0x2e8897e00232ec27228a43cb4dd30d9a662048fa);
    e := TwoBits(n, b, e, 0x2e8897e00232ec27228a43cb4dd30d9a662048fa, 0, 1, 0x6d6a9d0dab22a98f5ba36a157916ecb59358941f);
    e := TwoBits(n, b, e, 0x6d6a9d0dab22a98f5ba36a157916ecb59358941f, 1, b, 0x29efbf7633ad2192d398024ff566cd1b9ebb42bf);
    e := TwoBits(n, b, e, 0x29efbf7633ad2192d398024ff566cd1b9ebb42bf, 1, b, 0x45820cc6debc8148709c241a87778b38c876b7b8);
    e := TwoBits(n, b, e, 0x45820cc6debc8148709c241a87778b38c876b7b8, 2, b2, 0x59c7b9904edf1d2712fe97c7e836e5ec6f57bc9);
    e := TwoBits(n, b, e, 0x59c7b9904edf1d2712fe97c7e836e5ec6f57bc9, 2, b2, 0x75c146ae0b75330c9d92297cb920fd313f01fda4);
    e := TwoBits(n, b, e, 0x75c146ae0b75330c9d92297cb920fd313f01fda4, 2, b2, 0x73a57dff9348cf75dd956d21de00b11b36bd5a49);
    e := TwoBits(n, b, e, 0x73a57dff9348cf75dd956d21de00b11b36bd5a49, 3, b3, 0x4970ae5df68c4f0bf076d67059b2a59ac4cb550f);
    e := TwoBits(n, b, e, 0x4970ae5df68c4f0bf076d67059b2a59ac4cb550f, 2, b2, 0x7ad7c6eff20a3d6efecb122cea9d87e3ad1fff5b);
    e := TwoBits(n, b, e, 0x7ad7c6eff20a3d6efecb122cea9d87e3ad1fff5b, 0, 1, 0x22eef4c066fb6b3517fbe6bad55acac2e0c1e7dd);
    e := TwoBits(n, b, e, 0x22eef4c066fb6b3517fbe6bad55acac2e0c1e7dd, 0, 1, 0x7f98602edacaacec3cf8b479a90fb7e36c74bb6b);
    e := TwoBits(n, b, e, 0x7f98602edacaacec3cf8b479a90fb7e36c74bb6b, 0, 1, 0x222963d76eda0ad9ae493863b277a8fc372d17d9);
    e := TwoBits(n, b, e, 0x222963d76eda0ad9ae493863b277a8fc372d17d9, 0, 1, 0x23932473d60d24c7d2fd94c28acdcb55c325a989);
    e := TwoBits(n, b, e, 0x23932473d60d24c7d2fd94c28acdcb55c325a989, 3, b3, 0xfdf52541623ee92d39c7dbfb4c5a81739f8c297);
    e := TwoBits(n, b, e, 0xfdf52541623ee92d39c7dbfb4c5a81739f8c297, 3, b3, 0x4d9c8fa695b7224f4c72988c77f891f732ba456d);
    e := TwoBits(n, b, e, 0x4d9c8fa695b7224f4c72988c77f891f732ba456d, 0, 1, 0x5a7485917d3938f93bf03c172ac52e27d8ff3acc);
    e := TwoBits(n, b, e, 0x5a7485917d3938f93bf03c172ac52e27d8ff3acc, 2, b2, 0x3d249dc0e7ab781136993d49d4cedece1513ebb);
    e := TwoBits(n, b, e, 0x3d249dc0e7ab781136993d49d4cedece1513ebb, 0, 1, 0xa3700254bc2302023b0ee5b72cfe3fa2c05a935);
    e := TwoBits(n, b, e, 0xa3700254bc2302023b0ee5b72cfe3fa2c05a935, 3, b3, 0x8118fed6ae80bb618d8c65ba5ff317be319aa317);
  }

  lemma Power160Bit()
    ensures PowerIs(0x926d1276e41fae13fdda5f78edb7802a76951509, 0x84f6174410b13b7c641bfb1c0429a24ea8e8db82, 0x22b559b5c816ae00f2378e18df38c5410ed597, 0x1)
  {
    hide *;
    var n, b := 0x926d1276e41fae13fdda5f78edb7802a76951509, 0x84f6174410b13b7c641bfb1c0429a24ea8e8db82;
    var b2, b3 := 0x716368c5f08bdf6c4943d9ea39b018559b764a64, 0x86aed9f85f35738339a8214df50647034a0618b2;
    SmallPowers(n, b, b2, b3);
    Power160BitHalf();
    var e: nat := 0x22b559b5c816ae00f23;
    e := TwoBits(n, b, e, 0x8118fed6ae80bb618d8c65ba5ff317be319aa317, 1, b, 0x5f4943b9999a2e44121b782322eb3d5297d848b2);
    e := TwoBits(n, b, e, 0x5f4943b9999a2e44121b782322eb3d5297d848b2, 3, b3, 0x88cabdeb487eb941bb2c0297a5319309e9d7a3b3);
    e := TwoBits(n, b, e, 0x88cabdeb487eb941bb2c0297a5319309e9d7a3b3, 2, b2, 0xdb7ae4158583a120c056020a1db7170304822bc);
    e := TwoBits(n, b, e, 0xdb7ae4158583a120c056020a1db7170304822bc, 0, 1, 0x69e11d0dad988cae6957c20b7d6cf32432b187b5);
    e := TwoBits(n, b, e, 0x69e11d0dad988cae6957c20b7d6cf32432b187b5, 3, b3, 0x297dd81f6b487668f8fc08d13e65c19f49b30b76);
    e := TwoBits(n, b, e, 0x297dd81f6b487668f8fc08d13e65c19f49b30b76, 2, b2, 0x654ddc4f25cc539ad3baedf03a95ce415c0a8a89);
    e := TwoBits(n, b, e, 0x654ddc4f25cc539ad3baedf03a95ce415c0a8a89, 0, 1, 0x265ea01336e221626fd28adaf62c189f7de388f6);
    e := TwoBits(n, b, e, 0x265ea01336e221626fd28adaf62c189f7de388f6, 1, b, 0x6642f1f2223983a2ad2aa984191d06b0b38b66df);
    e := TwoBits(n, b, e, 0x6642f1f2223983a2ad2aa984191d06b0b38b66df, 2, b2, 0x7c2dfeed4a5543fbe001361a7d0c28f24f09898e);
    e := TwoBits(n, b, e, 0x7c2dfeed4a5543fbe001361a7d0c28f24f09898e, 0, 1, 0x1a826642686e354c15e728648a69b663da8857e4);
    e := TwoBits(n, b, e, 0x1a826642686e354c15e728648a69b663da8857e4, 3, b3, 0x1139f245c78773da71443f3efb7a05c9cc8e367a);
    e := TwoBits(n, b, e, 0x1139f245c78773da71443f3efb7a05c9cc8e367a, 1, b, 0x58482f77c94d9329f13c74951a2d0f0d4b918e1c);
    e := TwoBits(n, b, e, 0x58482f77c94d9329f13c74951a2d0f0d4b918e1c, 3, b3, 0x41bd6250464be1c6ded733ea2d39ec16b2ce85b5);
    e := TwoBits(n, b, e, 0x41bd6250464be1c6ded733ea2d39ec16b2ce85b5, 3, b3, 0x3425d3afd34e2b1e7855fb20634a0d10c7673829);
    e := TwoBits(n, b, e, 0x3425d3afd34e2b1e7855fb20634a0d10c7673829, 0, 1, 0x7ae656ce479a7958c5f52e98e34e462463df4e85);
    e := TwoBits(n, b, e, 0x7ae656ce479a7958c5f52e98e34e462463df4e85, 3, b3, 0x575e6efe6475727871c4d01bc0fc254b559e8fb1);
    e := TwoBits(n, b, e, 0x575e6efe6475727871c4d01bc0fc254b559e8fb1, 2, b2, 0x229f02d84f1d9e32883d5e8bc66209d14df74960);
    e := TwoBits(n, b, e, 0x229f02d84f1d9e32883d5e8bc66209d14df74960, 0, 1, 0x7e4b05a6f84682f6da1e2781e486797306518d60);
    e := TwoBits(n, b, e, 0x7e4b05a6f84682f6da1e2781e486797306518d60, 3, b3, 0x4189f9ab02a482b112b62c1887bb1dfbea488ea7);
    e := TwoBits(n, b, e, 0x4189f9ab02a482b112b62c1887bb1dfbea488ea7, 0, 1, 0x514e37c031f5040e393efd9d1a716514884bb945);
    e := TwoBits(n, b, e, 0x514e37c031f5040e393efd9d1a716514884bb945, 1, b, 0x112691762a072bccdfa9630a0c28c8654e2072b0);
    e := TwoBits(n, b, e, 0x112691762a072bccdfa9630a0c28c8654e2072b0, 1, b, 0x5376551079549132421e9a8de5c55711f77a8231);
    e := TwoBits(n, b, e, 0x5376551079549132421e9a8de5c55711f77a8231, 1, b, 0x42c1f61134c7a16736e4655ef35ab22d1b48a987);
    e := TwoBits(n, b, e, 0x42c1f61134c7a16736e4655ef35ab22d1b48a987, 0, 1, 0x45a2fb0b7982a884c9039dc4e90cbf7cfd7748f6);
    e := TwoBits(n, b, e, 0x45a2fb0b7982a884c9039dc4e90cbf7cfd7748f6, 0, 1, 0x53802be4b224866dfba1437f06f18b44889459c7);
    e := TwoBits(n, b, e, 0x53802be4b224866dfba1437f06f18b44889459c7, 1, b, 0x6fd948ba6c1c16b15d1e89ee3fd14598309872bd);
    e := TwoBits(n, b, e, 0x6fd948ba6c1c16b15d1e89ee3fd14598309872bd, 0, 1, 0x51f456615810c05070f22065efc0b0a6a6cbb09f);
    e := TwoBits(n, b, e, 0x51f456615810c05070f22065efc0b0a6a6cbb09f, 0, 1, 0x4789190540db6b7c4a479422c377b8823b81a660);
    e := TwoBits(n, b, e, 0x4789190540db6b7c4a479422c377b8823b81a660, 3, b3, 0x200cc452b37ef752204f712cce8ac213fdeea556);
    e := TwoBits(n, b, e, 0x200cc452b37ef752204f712cce8ac213fdeea556, 2, b2, 0x707d2f85d5ffa65fe7b626de4e0b515731c2171);
    e := TwoBits(n, b, e, 0x707d2f85d5ffa65fe7b626de4e0b515731c2171, 3, b3, 0x7b4d28fba277d724b0a9071a60ba724506ce830a);
    e := TwoBits(n, b, e, 0x7b4d28fba277d724b0a9071a60ba724506ce830a, 1, b, 0x1ee7c6bdf5a8d6a5dd470d2240aab53d2f7beaaf);
    e := TwoBits(n, b, e, 0x1ee7c6bdf5a8d6a5dd470d2240aab53d2f7beaaf, 1, b, 0x34eef8bf46de469c3289a0ee28f5a4445040fc01);
    e := TwoBits(n, b, e, 0x34eef8bf46de469c3289a0ee28f5a4445040fc01, 1, b, 0x5e717b4ee5578dc772c5014336d95eed13f055ca);
    e := TwoBits(n, b, e, 0x5e717b4ee5578dc772c5014336d95eed13f055ca, 2, b2, 0x159d61711fa013eda85b461250c7c208e484f80a);
    e := TwoBits(n, b, e, 0x159d61711fa013eda85b461250c7c208e484f80a, 1, b, 0x35ce0d92b6feb12125acbf9def4b23050b73468a);
    e := TwoBits(n, b, e, 0x35ce0d92b6feb12125acbf9def4b23050b73468a, 1, b, 0x22eb4c53c092d37cd912820dbd3ae28a55e81a1c);
    e := TwoBits(n, b, e, 0x22eb4c53c092d37cd912820dbd3ae28a55e81a1c, 3, b3, 0x1);
  }

  lemma Prime160Bit()
    ensures IsPrime(0x926d1276e41fae13fdda5f78edb7802a76951509)
  {
    hide IsPrime, PowerIs;
    Prime150Bit();
    Power160Bit();
    Certify(0x926d1276e41fae13fdda5f78edb7802a76951509, 0x22b559b5c816ae00f2378e18df38c5410ed597, 0x84f6174410b13b7c641bfb1c0429a24ea8e8db82, 0x915a3c97e1f064769fa3c1c13714e947fde75b95);
  }

  lemma PowerP256Half()
    ensures PowerIs(0xffffffff00000001000000000000000000000000ffffffffffffffffffffffff, 0x6e2de1e253b630ab90fb6c14c9913e3f79353ced1be9c68ed42e7ee18b96074e, 0x926d1276e41fae13fdda, 0xe9986cadf18c447af9303dcbeea94dd3a66184620c845eb88f4709ebf9af32a1)
  {
    hide *;
    var n, b := 0xffffffff00000001000000000000000000000000ffffffffffffffffffffffff, 0x6e2de1e253b630ab90fb6c14c9913e3f79353ced1be9c68ed42e7ee18b96074e;
    var b2, b3 := 0xcddc511f363c3bb8116b46458a69d7a0274a503b440caa7d25c8bd87ae161f53, 0xa928529b4c6a7c42a5a6531f4f55b13575633940cf243e9c7fc3b5daa71af545;
    SmallPowers(n, b, b2, b3);
    var e: nat := 0;
    e := TwoBits(n, b, e, 0x1, 2, b2, 0xcddc511f363c3bb8116b46458a69d7a0274a503b440caa7d25c8bd87ae161f53);
    e := TwoBits(n, b, e, 0xcddc511f363c3bb8116b46458a69d7a0274a503b440caa7d25c8bd87ae161f53, 1, b, 0x2424054e17717adb6c1cdaedeb038be8a41730d82100f79025d74a6d2fc0a50d);
    e := TwoBits(n, b, e, 0x2424054e17717adb6c1cdaedeb038be8a41730d82100f79025d74a6d2fc0a50d, 0, 1, 0xdc4c84ad702a12f7d6776a29a083b34a51ee48870c3f49e1130ddcb2c7f9f5e3);
    e := TwoBits(n, b, e, 0xdc4c84ad702a12f7d6776a29a083b34a51ee48870c3f49e1130ddcb2c7f9f5e3, 2, b2, 0x4946130ffc61cddf804f4e56aec674a27bb4d0ae18dfd60af2870ed09e9e7f29);
    e := TwoBits(n, b, e, 0x4946130ffc61cddf804f4e56aec674a27bb4d0ae18dfd60af2870ed09e9e7f29, 1, b, 0xdc738799e5a80a6e1026d7c1de48f0f1108146a39029b6fb3d91381470501c53);
    e := TwoBits(n, b, e, 0xdc738799e5a80a6e1026d7c1de48f0f1108146a39029b6fb3d91381470501c53, 2, b2, 0xc756eca9e9297003f1c395e1dc4812cbe6855c9d3b050a71b7295dbc62903a37);
    e := TwoBits(n, b, e, 0xc756eca9e9297003f1c395e1dc4812cbe6855c9d3b050a71b7295dbc62903a37, 3, b3, 0xacead5859071a32c4d5df713641d54fa2b7e5fb53c437683aabafea7773bcd34);
    e := TwoBits(n, b, e, 0xacead5859071a32c4d5df713641d54fa2b7e5fb53c437683aabafea7773bcd34, 1, b, 0x915341fb411034e524984ea48a0dfeeef468d1d04acd46efa44bda1cb2772594);
    e := TwoBits(n, b, e, 0x915341fb411034e524984ea48a0dfeeef468d1d04acd46efa44bda1cb2772594, 0, 1, 0x176c1613fbbbc6718d1d70a477c9310966b694db3ffef5a2dcdb1872c8ff09f5);
    e := TwoBits(n, b, e, 0x176c1613fbbbc6718d1d70a477c9310966b694db3ffef5a2dcdb1872c8ff09f5, 1, b, 0xae09b3f24bc8108c473d4b812170461c7804d36bf7583a754aa902029fcb6bfb);
    e := TwoBits(n, b, e, 0xae09b3f24bc8108c473d4b812170461c7804d36bf7583a754aa902029fcb6bfb, 0, 1, 0xbea97a7bf5cfa9402817ae32191605f7a26d5056f5af5b11ccd1b0c86a2381fb);
    e := TwoBits(n, b, e, 0xbea97a7bf5cfa9402817ae32191605f7a26d5056f5af5b11ccd1b0c86a2381fb, 2, b2, 0x4f94b3786b8db5a18c1040363dc69878b40e98cd0370964fdf0c20aa938a9404);
    e := TwoBits(n, b, e, 0x4f94b3786b8db5a18c1040363dc69878b40e98cd0370964fdf0c20aa938a9404, 1, b, 0x12e5b1dbcbc8b52ed76225e1685307004a8e000cd5cc98d51cccd75b60feb397);
    e := TwoBits(n, b, e, 0x12e5b1dbcbc8b52ed76225e1685307004a8e000cd5cc98d51cccd75b60feb397, 3, b3, 0x7724127d6951a3970ec0b2c8a78eee01425470f049fcd69788439c3905a4f2c7);
    e := TwoBits(n, b, e, 0x7724127d6951a3970ec0b2c8a78eee01425470f049fcd69788439c3905a4f2c7, 1, b, 0xca7e627504f29ff3d561851fd5a1326f48f39586baacced4ac7d2c7e855b0846);
    e := TwoBits(n, b, e, 0xca7e627504f29ff3d561851fd5a1326f48f39586baacced4ac7d2c7e855b0846, 2, b2, 0x158273403d49ef2f1fa172df7d6c7e0694a2faffd0b7f4dfeec95be0c4e6de75);
    e := TwoBits(n, b, e, 0x158273403d49ef2f1fa172df7d6c7e0694a2faffd0b7f4dfeec95be0c4e6de75, 3, b3, 0x94de782355901fc6ad2c89bba0d4bfdf585e2390e93f1054b3443af086a6ee8e);
    e := TwoBits(n, b, e, 0x94de782355901fc6ad2c89bba0d4bfdf585e2390e93f1054b3443af086a6ee8e, 2, b2, 0xb05023910c224ab5413888d39192a77719ac4c6be1b938ae745aed3cbddb4e95);
    e := TwoBits(n, b, e, 0xb05023910c224ab5413888d39192a77719ac4c6be1b938ae745aed3cbddb4e95, 1, b, 0x207db5725ffc0e7944f7a9b0f3f5810f452fe454c62184794aba9eddc48687c3);
    e := TwoBits(n, b, e, 0x207db5725ffc0e7944f7a9b0f3f5810f452fe454c62184794aba9eddc48687c3, 0, 1, 0xe2f8935d905b8ee0c26ec9cd043a2e39a508d47531e110d90b1783dfbcc10d7);
    e := TwoBits(n, b, e, 0xe2f8935d905b8ee0c26ec9cd043a2e39a508d47531e110d90b1783dfbcc10d7, 0, 1, 0xb46526c4e2493976800f1af7fe491a8f52a0b5652617e9e5153b562e07e5d1c8);
    e := TwoBits(n, b, e, 0xb46526c4e2493976800f1af7fe491a8f52a0b5652617e9e5153b562e07e5d1c8, 1, b, 0x7f2a2cbe2d4643ea18cbc4862f6823c46b3657c58d561ccbe2b57e67acc0cb0f);
    e := TwoBits(n, b, e, 0x7f2a2cbe2d4643ea18cbc4862f6823c46b3657c58d561ccbe2b57e67acc0cb0f, 3, b3, 0x930c1a0f4bb0082ec7dd8fa41c29ef9c24db0e39d7d090ce9269b07e1c9eb0ed);
    e := TwoBits(n, b, e, 0x930c1a0f4bb0082ec7dd8fa41c29ef9c24db0e39d7d090ce9269b07e1c9eb0ed, 3, b3, 0xaaf06cb1fc86aac9a57feaca9518a476bc83d471519c5d778caa77da34d9a33f);
    e := TwoBits(n, b, e, 0xaaf06cb1fc86aac9a57feaca9518a476bc83d471519c5d778caa77da34d9a33f, 2, b2, 0x38942b114fc94eeed19bd538272381038b58ee128713b2d1f0eda597a9e62e81);
    e := TwoBits(n, b, e, 0x38942b114fc94eeed19bd538272381038b58ee128713b2d1f0eda597a9e62e81, 2, b2, 0xbe431b8e50607ed14ba7516e4e41de40f968a435529b09c22ee8088e5b2a7c91);
    e := TwoBits(n, b, e, 0xbe431b8e50607ed14ba7516e4e41de40f968a435529b09c22ee8088e5b2a7c91, 3, b3, 0xe0f72ba0f84ab2b434915a85a13fcc3f36363aaea5eb2574ebe975e9ab3c646e);
    e := TwoBits(n, b, e, 0xe0f72ba0f84ab2b434915a85a13fcc3f36363aaea5eb2574ebe975e9ab3c646e, 2, b2, 0x766508d308aa8b1c609fbe03f37e9b9a42081a94173f9a274c1f8202ee92a3af);
    e := TwoBits(n, b, e, 0x766508d308aa8b1c609fbe03f37e9b9a42081a94173f9a274c1f8202ee92a3af, 0, 1, 0x5b1b8cd13c461e47e54b37218306040d976cd5ce57352492a73100cf01235005);
    e := TwoBits(n, b, e, 0x5b1b8cd13c461e47e54b37218306040d976cd5ce57352492a73100cf01235005, 1, b, 0x82802805119348987a5f9f7c23c9016e99538142cd41af52bb6e8f23c98810c6);
    e := TwoBits(n, b, e, 0x82802805119348987a5f9f7c23c9016e99538142cd41af52bb6e8f23c98810c6, 0, 1, 0xc83ec017dad27096805096708f889790c3382caa9431a60cfdc216595bc57445);
    e := TwoBits(n, b, e, 0xc83ec017dad27096805096708f889790c3382caa9431a60cfdc216595bc57445, 3, b3, 0x1a3401e2c8490ff858d11ad75f211edb3ee42bcd760197f24bc512a086b6a98c);
    e := TwoBits(n, b, e, 0x1a3401e2c8490ff858d11ad75f211edb3ee42bcd760197f24bc512a086b6a98c, 3, b3, 0xa0bc6a67eac99307424545eb465f9ddb571e73d586db77a2472ad92bd8038389);
    e := TwoBits(n, b, e, 0xa0bc6a67eac99307424545eb465f9ddb571e73d586db77a2472ad92bd8038389, 3, b3, 0x340fcb9349b4ae5e956cc7f244dcb7ef0ef5c2524b69a2e27177a4de8dfbfff1);
    e := TwoBits(n, b, e, 0x340fcb9349b4ae5e956cc7f244dcb7ef0ef5c2524b69a2e27177a4de8dfbfff1, 3, b3, 0x4d3183fae0434b56549c13834cbb05078ed875bfdc68c4fc0c72a947b0126da8);
    e := TwoBits(n, b, e, 0x4d3183fae0434b56549c13834cbb05078ed875bfdc68c4fc0c72a947b0126da8, 1, b, 0x2d014a91e13c37bccd0e1b0b5267edd616c0fdd52033969d302e7248f9d3d799);
    e := TwoBits(n, b, e, 0x2d014a91e13c37bccd0e1b0b5267edd616c0fdd52033969d302e7248f9d3d799, 3, b3, 0x6505492395be582d61f23727c235714188fac98deccb75b55f4f7e4d2f46fa15);
    e := TwoBits(n, b, e, 0x6505492395be582d61f23727c235714188fac98deccb75b55f4f7e4d2f46fa15, 1, b, 0x7867315e55cd67f6f5ff6f41fc784e4c6da387997ece3cb1359cb2a80e30135f);
    e := TwoBits(n, b, e, 0x7867315e55cd67f6f5ff6f41fc784e4c6da387997ece3cb1359cb2a80e30135f, 2, b2, 0x78b9258ad14f06927d4fb79073fcae4b64d5b197e24f028c2ae6cd256d74ae1b);
    e := TwoBits(n, b, e, 0x78b9258ad14f06927d4fb79073fcae4b64d5b197e24f028c2ae6cd256d74ae1b, 2, b2, 0xe9986cadf18c447af9303dcbeea94dd3a66184620c845eb88f4709ebf9af32a1);
  }

  lemma PowerP256()
    ensures PowerIs(0xffffffff00000001000000000000000000000000ffffffffffffffffffffffff, 0x6e2de1e253b630ab90fb6c14c9913e3f79353ced1be9c68ed42e7ee18b96074e, 0x926d1276e41fae13fdda5f78edb7802a76951509, 0x1)
  {
    hide *;
    var n, b := 0xffffffff00000001000000000000000000000000ffffffffffffffffffffffff, 0x6e2de1e253b630ab90fb6c14c9913e3f79353ced1be9c68ed42e7ee18b96074e;
    var b2, b3 := 0xcddc511f363c3bb8116b46458a69d7a0274a503b440caa7d25c8bd87ae161f53, 0xa928529b4c6a7c42a5a6531f4f55b13575633940cf243e9c7fc3b5daa71af545;
    SmallPowers(n, b, b2, b3);
    PowerP256Half();
    var e: nat := 0x926d1276e41fae13fdda;
    e := TwoBits(n, b, e, 0xe9986cadf18c447af9303dcbeea94dd3a66184620c845eb88f4709ebf9af32a1, 1, b, 0xc09bfb58b25bbc8663e56845844c8b41e1b3de8e1f4435fb96ccfee394ede82b);
    e := TwoBits(n, b, e, 0xc09bfb58b25bbc8663e56845844c8b41e1b3de8e1f4435fb96ccfee394ede82b, 1, b, 0x26e07153ce144a18a807f1c5558831593e9fff7f29aac6e831e68f786bf6f07c);
    e := TwoBits(n, b, e, 0x26e07153ce144a18a807f1c5558831593e9fff7f29aac6e831e68f786bf6f07c, 3, b3, 0xb3f5afeafab8a7485f83235bd7ada25e20a187dc758936611a8060ebdaa167ca);
    e := TwoBits(n, b, e, 0xb3f5afeafab8a7485f83235bd7ada25e20a187dc758936611a8060ebdaa167ca, 3, b3, 0xf748b3b73856f08e0cd598f836457183fc008b8907730f72a0b1fd0ecab3e9b5);
    e := TwoBits(n, b, e, 0xf748b3b73856f08e0cd598f836457183fc008b8907730f72a0b1fd0ecab3e9b5, 1, b, 0xad086c82e29eb027f711e31bb8c78a7d58938c34402cc3d0cd368ff586d58010);
    e := TwoBits(n, b, e, 0xad086c82e29eb027f711e31bb8c78a7d58938c34402cc3d0cd368ff586d58010, 3, b3, 0xadb9e70c82adecf22a0530d617fb36841bea00388b0ea12b25791b6808595c33);
    e := TwoBits(n, b, e, 0xadb9e70c82adecf22a0530d617fb36841bea00388b0ea12b25791b6808595c33, 2, b2, 0x1d4769ce1e7fcdc8278c4219bcafb504641ec253220d821adaab128b5b004349);
    e := TwoBits(n, b, e, 0x1d4769ce1e7fcdc8278c4219bcafb504641ec253220d821adaab128b5b004349, 0, 1, 0xd9b2da2165ba7d53b2b1ba2804ea3f1339df0bd60326b39c714cdaa39ce6a980);
    e := TwoBits(n, b, e, 0xd9b2da2165ba7d53b2b1ba2804ea3f1339df0bd60326b39c714cdaa39ce6a980, 3, b3, 0xd7207c0d84f54c1ec5545501c706f50b7edb70b23fa7213be1e0e57aa79a3960);
    e := TwoBits(n, b, e, 0xd7207c0d84f54c1ec5545501c706f50b7edb70b23fa7213be1e0e57aa79a3960, 2, b2, 0x8c5ff4782b016407eba716ca8c43c35df2003a1c1be2d3067de3b9d67b67010e);
    e := TwoBits(n, b, e, 0x8c5ff4782b016407eba716ca8c43c35df2003a1c1be2d3067de3b9d67b67010e, 3, b3, 0xdd706de015f301b5c40ddf70f8aa1baa0bcc7fb2b13f38770a51cc05a60e039b);
    e := TwoBits(n, b, e, 0xdd706de015f301b5c40ddf70f8aa1baa0bcc7fb2b13f38770a51cc05a60e039b, 1, b, 0x6c1e2b8f0eb24dcd82b27e71af372707c36eb9df972f9681d96d3efa2171966);
    e := TwoBits(n, b, e, 0x6c1e2b8f0eb24dcd82b27e71af372707c36eb9df972f9681d96d3efa2171966, 2, b2, 0x584add1948d091acf95c138bf7509f40bd0c610dd7043ef222633777f977e05c);
    e := TwoBits(n, b, e, 0x584add1948d091acf95c138bf7509f40bd0c610dd7043ef222633777f977e05c, 3, b3, 0xdf8f087b8dc68573904f4ec00b6066a96efd3de7119d70a253dd451a2b356fdd);
    e := TwoBits(n, b, e, 0xdf8f087b8dc68573904f4ec00b6066a96efd3de7119d70a253dd451a2b356fdd, 1, b, 0xbca07a3ca081f9190a85e2066335ec5e318c9d2ab8ae62451a2519e766ea8d06);
    e := TwoBits(n, b, e, 0xbca07a3ca081f9190a85e2066335ec5e318c9d2ab8ae62451a2519e766ea8d06, 3, b3, 0x5c3e480d479d2511e1995014dbe228d2031822d63a1de4be55ea540eb9b6677e);
    e := TwoBits(n, b, e, 0x5c3e480d479d2511e1995014dbe228d2031822d63a1de4be55ea540eb9b6677e, 2, b2, 0xd75af310b424cdd3ea3da63b8d7755db9db425e31d652902c0ec52d8774f001a);
    e := TwoBits(n, b, e, 0xd75af310b424cdd3ea3da63b8d7755db9db425e31d652902c0ec52d8774f001a, 0, 1, 0xe0fdef8e4a5aba451f4c60a7c266dd9a59cca9bf5cedf1a6cc9306944e7a92d8);
    e := TwoBits(n, b, e, 0xe0fdef8e4a5aba451f4c60a7c266dd9a59cca9bf5cedf1a6cc9306944e7a92d8, 0, 1, 0x2d6ef39a362b92a235e24fb7c5f035f0f951ff11e01e0e96457a955b09d5809c);
    e := TwoBits(n, b, e, 0x2d6ef39a362b92a235e24fb7c5f035f0f951ff11e01e0e96457a955b09d5809c, 0, 1, 0xca1e20ca225e6d1474c0e5b218f48c7ca2ae35e77015959c2dd06ad03547f2e0);
    e := TwoBits(n, b, e, 0xca1e20ca225e6d1474c0e5b218f48c7ca2ae35e77015959c2dd06ad03547f2e0, 0, 1, 0xd4979897a7f37384a7b143144589743020ff0fd423fcfef110e6f5b7d270688e);
    e := TwoBits(n, b, e, 0xd4979897a7f37384a7b143144589743020ff0fd423fcfef110e6f5b7d270688e, 2, b2, 0x6822d866e8f7723db7796632d52ceb854ecba2112b582aadce15ba1bd2fae622);
    e := TwoBits(n, b, e, 0x6822d866e8f7723db7796632d52ceb854ecba2112b582aadce15ba1bd2fae622, 2, b2, 0xbe2142a377d16d1dcd40ebbf43b480f22ced802d5500cd0652a78ebc8b849325);
    e := TwoBits(n, b, e, 0xbe2142a377d16d1dcd40ebbf43b480f22ced802d5500cd0652a78ebc8b849325, 2, b2, 0x228fb229af9f5c030e31c5eef9ab451b502f206250d894fdb5020806ccfa888d);
    e := TwoBits(n, b, e, 0x228fb229af9f5c030e31c5eef9ab451b502f206250d894fdb5020806ccfa888d, 1, b, 0x9eed3d2a76328f8bc97c14844285ec3c300eca9558977c098e60b9dbf6a66430);
    e := TwoBits(n, b, e, 0x9eed3d2a76328f8bc97c14844285ec3c300eca9558977c098e60b9dbf6a66430, 3, b3, 0x3e3d3e0658b41f120dd03a62fd2b49a32814663a161dcb76fd002d7d0b1d13d9);
    e := TwoBits(n, b, e, 0x3e3d3e0658b41f120dd03a62fd2b49a32814663a161dcb76fd002d7d0b1d13d9, 1, b, 0x9a52f1283e0514f2fc91194da289c9510d053a7e0b5a13fd64523ebc32b8923);
    e := TwoBits(n, b, e, 0x9a52f1283e0514f2fc91194da289c9510d053a7e0b5a13fd64523ebc32b8923, 2, b2, 0x7d7eaf3846540ab3f6c42ecaa3c7253515bf8af9311822a341da6cdec4d36335);
    e := TwoBits(n, b, e, 0x7d7eaf3846540ab3f6c42ecaa3c7253515bf8af9311822a341da6cdec4d36335, 2, b2, 0x70bc1db5d9ec5bf4a527aeeaab7996881437261f7181a7eb8c5ad567aad31f98);
    e := TwoBits(n, b, e, 0x70bc1db5d9ec5bf4a527aeeaab7996881437261f7181a7eb8c5ad567aad31f98, 1, b, 0x42d1499609594e445d8c62ad7a267f1613318efe64609320a3408923469ffa87);
    e := TwoBits(n, b, e, 0x42d1499609594e445d8c62ad7a267f1613318efe64609320a3408923469ffa87, 1, b, 0x5ff1e8d0fb4dae3fb0dcad3b5e2ec233783ffe68ade656a324a434fb1ea1fb50);
    e := TwoBits(n, b, e, 0x5ff1e8d0fb4dae3fb0dcad3b5e2ec233783ffe68ade656a324a434fb1ea1fb50, 1, b, 0xf8e46fe3972a911ab384e4b8b39c3ad1b7175d03e3d208c5e4314f82c3b83a90);
    e := TwoBits(n, b, e, 0xf8e46fe3972a911ab384e4b8b39c3ad1b7175d03e3d208c5e4314f82c3b83a90, 0, 1, 0x6c103b9507a9cc828e527bd987f4a2017fbd1b0d27a0054cdcc0026c82b2506);
    e := TwoBits(n, b, e, 0x6c103b9507a9cc828e527bd987f4a2017fbd1b0d27a0054cdcc0026c82b2506, 1, b, 0xbb92cb64ddd486e8e13df6c43008a6310f2801403c5dbb139daf97a99a67028a);
    e := TwoBits(n, b, e, 0xbb92cb64ddd486e8e13df6c43008a6310f2801403c5dbb139daf97a99a67028a, 1, b, 0x78d78246432c32dabbfa7ad41a4c3ad86310457d459d17909a82da7a0be33ed0);
    e := TwoBits(n, b, e, 0x78d78246432c32dabbfa7ad41a4c3ad86310457d459d17909a82da7a0be33ed0, 1, b, 0x2c0dbbfd0bdc828eae74b789bb9cd1c94e9c874afe59fe229db0de45b0ed0abd);
    e := TwoBits(n, b, e, 0x2c0dbbfd0bdc828eae74b789bb9cd1c94e9c874afe59fe229db0de45b0ed0abd, 0, 1, 0xd9cc08c1356ae237474bfae6e06e023b3bde180600e7497fe351f22515842b61);
    e := TwoBits(n, b, e, 0xd9cc08c1356ae237474bfae6e06e023b3bde180600e7497fe351f22515842b61, 0, 1, 0xdbb78c601595c16a3ec7e28b58bb0efd944b7fba7929f05b8acaa34dd5985f07);
    e := TwoBits(n, b, e, 0xdbb78c601595c16a3ec7e28b58bb0efd944b7fba7929f05b8acaa34dd5985f07, 2, b2, 0x812469e1b68da15c46fd080044d228ed0296e50de83e1fbe2c75ce4f51a50ff);
    e := TwoBits(n, b, e, 0x812469e1b68da15c46fd080044d228ed0296e50de83e1fbe2c75ce4f51a50ff, 1, b, 0x1);
  }

  lemma PrimeP256()
    ensures IsPrime(0xffffffff00000001000000000000000000000000ffffffffffffffffffffffff)
  {
    hide IsPrime, PowerIs;
    Prime160Bit();
    PowerP256();
    Certify(0xffffffff00000001000000000000000000000000ffffffffffffffffffffffff, 0x926d1276e41fae13fdda5f78edb7802a76951509, 0x6e2de1e253b630ab90fb6c14c9913e3f79353ced1be9c68ed42e7ee18b96074e, 0x4f5b418eca523fb75369a24772ba6e620c00261d7f768df08143595c559af3ce);
  }

  // ---------------------------------------------------------------- the group order

  lemma Prime3()
    ensures IsPrime(3)
  {
    TrialDivision(3, 1);
  }

  lemma Prime7()
    ensures IsPrime(7)
  {
    assert !Divides(2, 7);
    TrialDivision(7, 2);
  }

  lemma Prime43()
    ensures IsPrime(43)
  {
    assert !Divides(2, 43) && !Divides(3, 43) && !Divides(4, 43) && !Divides(5, 43) && !Divides(6, 43);
    TrialDivision(43, 6);
  }

  lemma Prime151()
    ensures IsPrime(151)
  {
    assert !Divides(2, 151) && !Divides(3, 151) && !Divides(4, 151) && !Divides(5, 151) && !Divides(6, 151)
      && !Divides(7, 151) && !Divides(8, 151) && !Divides(9, 151) && !Divides(10, 151) && !Divides(11, 151)
      && !Divides(12, 151);
    TrialDivision(151, 12);
  }

  lemma Prime337()
    ensures IsPrime(337)
  {
    assert !Divides(2, 337) && !Divides(3, 337) && !Divides(4, 337) && !Divides(5, 337) && !Divides(6, 337)
      && !Divides(7, 337) && !Divides(8, 337) && !Divides(9, 337) && !Divides(10, 337) && !Divides(11, 337)
      && !Divides(12, 337) && !Divides(13, 337) && !Divides(14, 337) && !Divides(15, 337) && !Divides(16, 337)
      && !Divides(17, 337) && !Divides(18, 337);
    TrialDivision(337, 18);
  }

  lemma Power1511()
    ensures PowerIs(0x5e7, 0x400, 0x97, 0x1)
  {
    hide *;
    var n, b := 0x5e7, 0x400;
    var b2, b3 := 0x5ad, 0x418;
    SmallPowers(n, b, b2, b3);
    var e: nat := 0;
    e := TwoBits(n, b, e, 0x1, 2, b2, 0x5ad);
    e := TwoBits(n, b, e, 0x5ad, 1, b, 0xd2);
    e := TwoBits(n, b, e, 0xd2, 1, b, 0x3af);
    e := TwoBits(n, b, e, 0x3af, 3, b3, 0x1);
  }

  lemma Prime1511()
    ensures IsPrime(0x5e7)
  {
    hide IsPrime, PowerIs;
    Prime151();
    Power1511();
    Certify(0x5e7, 0x97, 0x400, 0x1a2);
  }

  lemma Power3023()
    ensures PowerIs(0xbcf, 0x4, 0x5e7, 0x1)
  {
    hide *;
    var n, b := 0xbcf, 0x4;
    var b2, b3 := 0x10, 0x40;
    SmallPowers(n, b, b2, b3);
    var e: nat := 0;
    e := TwoBits(n, b, e, 0x1, 1, b, 0x4);
    e := TwoBits(n, b, e, 0x4, 1, b, 0x400);
    e := TwoBits(n, b, e, 0x400, 3, b3, 0x6d0);
    e := TwoBits(n, b, e, 0x6d0, 2, b2, 0x4a6);
    e := TwoBits(n, b, e, 0x4a6, 1, b, 0x8e9);
    e := TwoBits(n, b, e, 0x8e9, 3, b3, 0x1);
  }

  lemma Prime3023()
    ensures IsPrime(0xbcf)
  {
    hide IsPrime, PowerIs;
    Prime1511();
    Power3023();
    Certify(0xbcf, 0x5e7, 0x4, 0x3f0);
  }

  lemma Power155317A()
    ensures PowerIs(0x25eb5, 0x5c50, 0x2b, 0x1)
  {
    hide *;
    var n, b := 0x25eb5, 0x5c50;
    var b2, b3 := 0x1a139, 0xd1d9;
    SmallPowers(n, b, b2, b3);
    var e: nat := 0;
    e := TwoBits(n, b, e, 0x1, 2, b2, 0x1a139);
    e := TwoBits(n, b, e, 0x1a139, 2, b2, 0x1d28a);
    e := TwoBits(n, b, e, 0x1d28a, 3, b3, 0x1);
  }

  lemma Power155317B()
    ensures PowerIs(0x25eb5, 0x3f5f, 0x7, 0x1)
  {
    hide *;
    var n, b := 0x25eb5, 0x3f5f;
    var b2, b3 := 0x1338b, 0x13daa;
    SmallPowers(n, b, b2, b3);
    var e: nat := 0;
    e := TwoBits(n, b, e, 0x1, 1, b, 0x3f5f);
    e := TwoBits(n, b, e, 0x3f5f, 3, b3, 0x1);
  }

  lemma Power155317C()
    ensures PowerIs(0x25eb5, 0xcf21, 0x3, 0x1)
  {
    hide *;
    var n, b := 0x25eb5, 0xcf21;
    var b2, b3 := 0x18f93, 0x1;
    SmallPowers(n, b, b2, b3);
    var e: nat := 0;
    e := TwoBits(n, b, e, 0x1, 3, b3, 0x1);
  }

  lemma Prime155317()
    ensures IsPrime(0x25eb5)
  {
    hide IsPrime, PowerIs;
    Prime43();
    Prime7();
    Prime3();
    Power155317A();
    Power155317B();
    Power155317C();
    CertifyThree(0x25eb5,
      0x2b, 0x5c50, 0x2426a,
      0x7, 0x3f5f, 0x1c2,
      0x3, 0xcf21, 0x14f6d);
  }

  lemma Power191039911()
    ensures PowerIs(0xb6309a7, 0x48b6081, 0x25eb5, 0x1)
  {
    hide *;
    var n, b := 0xb6309a7, 0x48b6081;
    var b2, b3 := 0x137d2fe, 0x76de303;
    SmallPowers(n, b, b2, b3);
    var e: nat := 0;
    e := TwoBits(n, b, e, 0x1, 2, b2, 0x137d2fe);
    e := TwoBits(n, b, e, 0x137d2fe, 1, b, 0x45bf37c);
    e := TwoBits(n, b, e, 0x45bf37c, 1, b, 0x20bbca8);
    e := TwoBits(n, b, e, 0x20bbca8, 3, b3, 0x1cf1c36);
    e := TwoBits(n, b, e, 0x1cf1c36, 2, b2, 0x7021e84);
    e := TwoBits(n, b, e, 0x7021e84, 2, b2, 0xb0cf4f);
    e := TwoBits(n, b, e, 0xb0cf4f, 3, b3, 0x6124655);
    e := TwoBits(n, b, e, 0x6124655, 1, b, 0x3a9e1b0);
    e := TwoBits(n, b, e, 0x3a9e1b0, 1, b, 0x1);
  }

  lemma Prime191039911()
    ensures IsPrime(0xb6309a7)
  {
    hide IsPrime, PowerIs;
    Prime155317();
    Power191039911();
    Certify(0xb6309a7, 0x25eb5, 0x48b6081, 0x424d3b6);
  }

  lemma Power58BitA()
    ensures PowerIs(0x2e3802c35c7ed3b, 0x13eb608199212c2, 0xb6309a7, 0x1)
  {
    hide *;
    var n, b := 0x2e3802c35c7ed3b, 0x13eb608199212c2;
    var b2, b3 := 0x28a0882740f950e, 0x27df69430faf4c2;
    SmallPowers(n, b, b2, b3);
    var e: nat := 0;
    e := TwoBits(n, b, e, 0x1, 2, b2, 0x28a0882740f950e);
    e := TwoBits(n, b, e, 0x28a0882740f950e, 3, b3, 0xc952d92ca78eea);
    e := TwoBits(n, b, e, 0xc952d92ca78eea, 1, b, 0x7f0207e446b8ba);
    e := TwoBits(n, b, e, 0x7f0207e446b8ba, 2, b2, 0x2629a5c1b5824fb);
    e := TwoBits(n, b, e, 0x2629a5c1b5824fb, 0, 1, 0x28a333db162812f);
    e := TwoBits(n, b, e, 0x28a333db162812f, 3, b3, 0x3db66240aa57ba);
    e := TwoBits(n, b, e, 0x3db66240aa57ba, 0, 1, 0x1bbd07f1ceb2d6);
    e := TwoBits(n, b, e, 0x1bbd07f1ceb2d6, 0, 1, 0x1d81e3bddee16d0);
    e := TwoBits(n, b, e, 0x1d81e3bddee16d0, 2, b2, 0x2bceaaca8e11c5e);
    e := TwoBits(n, b, e, 0x2bceaaca8e11c5e, 1, b, 0x1d239f3aa020bec);
    e := TwoBits(n, b, e, 0x1d239f3aa020bec, 2, b2, 0x1a6d74859572dab);
    e := TwoBits(n, b, e, 0x1a6d74859572dab, 2, b2, 0x2df9e78309df6a);
    e := TwoBits(n, b, e, 0x2df9e78309df6a, 1, b, 0x236eb24d47d62f1);
    e := TwoBits(n, b, e, 0x236eb24d47d62f1, 3, b3, 0x1);
  }

  lemma Power58BitB()
    ensures PowerIs(0x2e3802c35c7ed3b, 0x278744e714d9d32, 0xbcf, 0x1)
  {
    hide *;
    var n, b := 0x2e3802c35c7ed3b, 0x278744e714d9d32;
    var b2, b3 := 0x1828cdd568540b5, 0x15ce13d19934cce;
    SmallPowers(n, b, b2, b3);
    var e: nat := 0;
    e := TwoBits(n, b, e, 0x1, 2, b2, 0x1828cdd568540b5);
    e := TwoBits(n, b, e, 0x1828cdd568540b5, 3, b3, 0x10c6a089b9bdbfb);
    e := TwoBits(n, b, e, 0x10c6a089b9bdbfb, 3, b3, 0x62187c843ea846);
    e := TwoBits(n, b, e, 0x62187c843ea846, 0, 1, 0x6f5f281324934f);
    e := TwoBits(n, b, e, 0x6f5f281324934f, 3, b3, 0x2606f59cfe0ad);
    e := TwoBits(n, b, e, 0x2606f59cfe0ad, 3, b3, 0x1);
  }

  lemma Prime58Bit()
    ensures IsPrime(0x2e3802c35c7ed3b)
  {
    hide IsPrime, PowerIs;
    Prime191039911();
    Prime3023();
    Power58BitA();
    Power58BitB();
    CertifyTwo(0x2e3802c35c7ed3b,
      0xb6309a7, 0x13eb608199212c2, 0x1db8cf470f45437,
      0xbcf, 0x278744e714d9d32, 0xf8b5a170b33cbe);
  }

  lemma Power92Bit()
    ensures PowerIs(0x87b23e9d09d3e637b2aa341, 0x7abdbdcd50b580e230e79, 0x2e3802c35c7ed3b, 0x1)
  {
    hide *;
    var n, b := 0x87b23e9d09d3e637b2aa341, 0x7abdbdcd50b580e230e79;
    var b2, b3 := 0x4176f414a47023b4dc67e9f, 0x56529150726dc2274ef78d1;
    SmallPowers(n, b, b2, b3);
    var e: nat := 0;
    e := TwoBits(n, b, e, 0x1, 2, b2, 0x4176f414a47023b4dc67e9f);
    e := TwoBits(n, b, e, 0x4176f414a47023b4dc67e9f, 3, b3, 0x85b565a272da0b0fcfc6758);
    e := TwoBits(n, b, e, 0x85b565a272da0b0fcfc6758, 2, b2, 0x74e97154ac203ecd55a9f22);
    e := TwoBits(n, b, e, 0x74e97154ac203ecd55a9f22, 0, 1, 0x1d82692e657ac6290d660d9);
    e := TwoBits(n, b, e, 0x1d82692e657ac6290d660d9, 3, b3, 0x5da4c215196286a1db13dfa);
    e := TwoBits(n, b, e, 0x5da4c215196286a1db13dfa, 2, b2, 0x144f739d0482193c3948c17);
    e := TwoBits(n, b, e, 0x144f739d0482193c3948c17, 0, 1, 0x4fb04d147e006b0168f75b9);
    e := TwoBits(n, b, e, 0x4fb04d147e006b0168f75b9, 0, 1, 0x62efdcd5333d83ccbe4888);
    e := TwoBits(n, b, e, 0x62efdcd5333d83ccbe4888, 0, 1, 0x16a88805bf6c3820527c1dd);
    e := TwoBits(n, b, e, 0x16a88805bf6c3820527c1dd, 0, 1, 0x1ebea99a08a0abd9229bda4);
    e := TwoBits(n, b, e, 0x1ebea99a08a0abd9229bda4, 2, b2, 0x498923a70a1dbba9a6f1160);
    e := TwoBits(n, b, e, 0x498923a70a1dbba9a6f1160, 3, b3, 0x187d7a1839cb95bacdc70f0);
    e := TwoBits(n, b, e, 0x187d7a1839cb95bacdc70f0, 0, 1, 0x409d714924dc8043c9c4bf6);
    e := TwoBits(n, b, e, 0x409d714924dc8043c9c4bf6, 0, 1, 0x40497f25427075845a2c4c2);
    e := TwoBits(n, b, e, 0x40497f25427075845a2c4c2, 3, b3, 0x3505df3fb286d666881a40a);
    e := TwoBits(n, b, e, 0x3505df3fb286d666881a40a, 1, b, 0x314295eaddcd94f06f0c2f);
    e := TwoBits(n, b, e, 0x314295eaddcd94f06f0c2f, 1, b, 0x5e5ed8704e37b902121fe8c);
    e := TwoBits(n, b, e, 0x5e5ed8704e37b902121fe8c, 3, b3, 0x67b8c143c68f3a8d7dda5a1);
    e := TwoBits(n, b, e, 0x67b8c143c68f3a8d7dda5a1, 0, 1, 0x49b903ff3ba91420bd67fa1);
    e := TwoBits(n, b, e, 0x49b903ff3ba91420bd67fa1, 1, b, 0x3aff75d4da8869fe934f019);
    e := TwoBits(n, b, e, 0x3aff75d4da8869fe934f019, 3, b3, 0x64965e0d529365b422819b9);
    e := TwoBits(n, b, e, 0x64965e0d529365b422819b9, 3, b3, 0x5e12105351ee68632e0791c);
    e := TwoBits(n, b, e, 0x5e12105351ee68632e0791c, 2, b2, 0x561108f65fe6df43c703e68);
    e := TwoBits(n, b, e, 0x561108f65fe6df43c703e68, 3, b3, 0x2a17fc61d47852c618791f2);
    e := TwoBits(n, b, e, 0x2a17fc61d47852c618791f2, 1, b, 0x2d743be682427a2aaebe852);
    e := TwoBits(n, b, e, 0x2d743be682427a2aaebe852, 0, 1, 0x325604c1a59987705f456f9);
    e := TwoBits(n, b, e, 0x325604c1a59987705f456f9, 3, b3, 0x2497e9078ee6a975645bfa3);
    e := TwoBits(n, b, e, 0x2497e9078ee6a975645bfa3, 2, b2, 0x42de6d18b1e5d0f00ab791c);
    e := TwoBits(n, b, e, 0x42de6d18b1e5d0f00ab791c, 3, b3, 0x1);
  }

  lemma Prime92Bit()
    ensures IsPrime(0x87b23e9d09d3e637b2aa341)
  {
    hide IsPrime, PowerIs;
    Prime58Bit();
    Power92Bit();
    Certify(0x87b23e9d09d3e637b2aa341, 0x2e3802c35c7ed3b, 0x7abdbdcd50b580e230e79, 0x693de961c10a589c336a85a);
  }

  lemma Power104471()
    ensures PowerIs(0x19817, 0xa30b, 0x151, 0x1)
  {
    hide *;
    var n, b := 0x19817, 0xa30b;
    var b2, b3 := 0x16054, 0x13217;
    SmallPowers(n, b, b2, b3);
    var e: nat := 0;
    e := TwoBits(n, b, e, 0x1, 1, b, 0xa30b);
    e := TwoBits(n, b, e, 0xa30b, 1, b, 0x18987);
    e := TwoBits(n, b, e, 0x18987, 1, b, 0x5a05);
    e := TwoBits(n, b, e, 0x5a05, 0, 1, 0xef42);
    e := TwoBits(n, b, e, 0xef42, 1, b, 0x1);
  }

  lemma Prime104471()
    ensures IsPrime(0x19817)
  {
    hide IsPrime, PowerIs;
    Prime337();
    Power104471();
    Certify(0x19817, 0x151, 0xa30b, 0x6c80);
  }

  lemma Power3969899()
    ensures PowerIs(0x3c936b, 0x200bd8, 0x19817, 0x1)
  {
    hide *;
    var n, b := 0x3c936b, 0x200bd8;
    var b2, b3 := 0xa3a66, 0x7d354;
    SmallPowers(n, b, b2, b3);
    var e: nat := 0;
    e := TwoBits(n, b, e, 0x1, 1, b, 0x200bd8);
    e := TwoBits(n, b, e, 0x200bd8, 2, b2, 0x34444c);
    e := TwoBits(n, b, e, 0x34444c, 1, b, 0xa5eb9);
    e := TwoBits(n, b, e, 0xa5eb9, 2, b2, 0x30358c);
    e := TwoBits(n, b, e, 0x30358c, 0, 1, 0x6445a);
    e := TwoBits(n, b, e, 0x6445a, 0, 1, 0x370d19);
    e := TwoBits(n, b, e, 0x370d19, 1, b, 0x3e2d);
    e := TwoBits(n, b, e, 0x3e2d, 1, b, 0x22dce6);
    e := TwoBits(n, b, e, 0x22dce6, 3, b3, 0x1);
  }

  lemma Prime3969899()
    ensures IsPrime(0x3c936b)
  {
    hide IsPrime, PowerIs;
    Prime104471();
    Power3969899();
    Certify(0x3c936b, 0x19817, 0x200bd8, 0x223c42);
  }

  lemma Power40Bit()
    ensures PowerIs(0xe95f681f97, 0x33a6dcaeab, 0x3c936b, 0x1)
  {
    hide *;
    var n, b := 0xe95f681f97, 0x33a6dcaeab;
    var b2, b3 := 0xa30ebd991, 0x2fc1b816f4;
    SmallPowers(n, b, b2, b3);
    var e: nat := 0;
    e := TwoBits(n, b, e, 0x1, 3, b3, 0x2fc1b816f4);
    e := TwoBits(n, b, e, 0x2fc1b816f4, 3, b3, 0x97694a8750);
    e := TwoBits(n, b, e, 0x97694a8750, 0, 1, 0x5d32040d79);
    e := TwoBits(n, b, e, 0x5d32040d79, 2, b2, 0x30d83d933d);
    e := TwoBits(n, b, e, 0x30d83d933d, 1, b, 0xa9c2feeca);
    e := TwoBits(n, b, e, 0xa9c2feeca, 0, 1, 0x44ae62a761);
    e := TwoBits(n, b, e, 0x44ae62a761, 3, b3, 0x5b8bdfda40);
    e := TwoBits(n, b, e, 0x5b8bdfda40, 1, b, 0xc338ab20ff);
    e := TwoBits(n, b, e, 0xc338ab20ff, 2, b2, 0xd120efd58e);
    e := TwoBits(n, b, e, 0xd120efd58e, 2, b2, 0xb5d328e9d0);
    e := TwoBits(n, b, e, 0xb5d328e9d0, 3, b3, 0x1);
  }

  lemma Prime40Bit()
    ensures IsPrime(0xe95f681f97)
  {
    hide IsPrime, PowerIs;
    Prime3969899();
    Power40Bit();
    Certify(0xe95f681f97, 0x3c936b, 0x33a6dcaeab, 0xa75f7d650b);
  }

  lemma PowerOrderA()
    ensures PowerIs(0xffffffff00000000ffffffffffffffffbce6faada7179e84f3b9cac2fc632551, 0xc0915601e1a4a1534a1b5bb0f18a5be8c8606856c8892723c90c7158d2e5baaf, 0x87b23e9d09d3e637b2aa341, 0x1)
  {
    hide *;
    var n, b := 0xffffffff00000000ffffffffffffffffbce6faada7179e84f3b9cac2fc632551, 0xc0915601e1a4a1534a1b5bb0f18a5be8c8606856c8892723c90c7158d2e5baaf;
    var b2, b3 := 0x92c59530e863439e2eec20b420f28e96c720826bbf1fe21812dbf86e0207ca39, 0x3be9186a3206fe3bd991d12239ae93197ade713fa35fd518b1affc28734ceff0;
    SmallPowers(n, b, b2, b3);
    var e: nat := 0;
    e := TwoBits(n, b, e, 0x1, 2, b2, 0x92c59530e863439e2eec20b420f28e96c720826bbf1fe21812dbf86e0207ca39);
    e := TwoBits(n, b, e, 0x92c59530e863439e2eec20b420f28e96c720826bbf1fe21812dbf86e0207ca39, 0, 1, 0x2152e5f89db30de5109c11b75b74c22f04cd3127ff77cd4814fc29fb41e1a129);
    e := TwoBits(n, b, e, 0x2152e5f89db30de5109c11b75b74c22f04cd3127ff77cd4814fc29fb41e1a129, 1, b, 0x67df05b59151590112b0c921c6f18018fb21d358c70b7d45df013eb642e230a7);
    e := TwoBits(n, b, e, 0x67df05b59151590112b0c921c6f18018fb21d358c70b7d45df013eb642e230a7, 3, b3, 0xa8c0a8d88a8d05a5a79d022164b1c55c2ca4d3585576ba6e34e28b187f014724);
    e := TwoBits(n, b, e, 0xa8c0a8d88a8d05a5a79d022164b1c55c2ca4d3585576ba6e34e28b187f014724, 2, b2, 0xce950f0010980d4e7be256b11a9bc617c9cd8b9108ab9a09452d9a7967100c8);
    e := TwoBits(n, b, e, 0xce950f0010980d4e7be256b11a9bc617c9cd8b9108ab9a09452d9a7967100c8, 3, b3, 0x434d52dc47f5695877a56088482c95e0fa8585684589ea67b28d45e00698084f);
    e := TwoBits(n, b, e, 0x434d52dc47f5695877a56088482c95e0fa8585684589ea67b28d45e00698084f, 0, 1, 0xa664e5a3eae6aaf3e785ca35efd8f4fbcff23d44a4bde0e493e65fd6dc52a425);
    e := TwoBits(n, b, e, 0xa664e5a3eae6aaf3e785ca35efd8f4fbcff23d44a4bde0e493e65fd6dc52a425, 2, b2, 0x5cda150a4b41db5212bdf8d271331df4c92c5ad60a41c0f0c2459ea847d61762);
    e := TwoBits(n, b, e, 0x5cda150a4b41db5212bdf8d271331df4c92c5ad60a41c0f0c2459ea847d61762, 0, 1, 0x3022a9bb9075fe49673a29cfbae736a6b5e1f6c9993b7b787f38435d7af67e75);
    e := TwoBits(n, b, e, 0x3022a9bb9075fe49673a29cfbae736a6b5e1f6c9993b7b787f38435d7af67e75, 3, b3, 0x35614f078ddac9a98b5088fb1ead750bae5853435acd5558e77d2b85437dd18a);
    e := TwoBits(n, b, e, 0x35614f078ddac9a98b5088fb1ead750bae5853435acd5558e77d2b85437dd18a, 3, b3, 0x9e2229a172f11c8f59d2cf8cd705e52de457955d719ee35c3ee4068bad860d1);
    e := TwoBits(n, b, e, 0x9e2229a172f11c8f59d2cf8cd705e52de457955d719ee35c3ee4068bad860d1, 2, b2, 0xa65f4dda491275360b3ef9da140ca70c526382bc6347978c4e8927cf82138dc4);
    e := TwoBits(n, b, e, 0xa65f4dda491275360b3ef9da140ca70c526382bc6347978c4e8927cf82138dc4, 2, b2, 0x3309fed8f5f388ce26eb003b3c923004b588a1210bdc5b5b5da227599ebc2c6b);
    e := TwoBits(n, b, e, 0x3309fed8f5f388ce26eb003b3c923004b588a1210bdc5b5b5da227599ebc2c6b, 1, b, 0x5a8614d5c9c8d2653da2ff8333db9996c549059a157dd95d83d79596fcb438cc);
    e := TwoBits(n, b, e, 0x5a8614d5c9c8d2653da2ff8333db9996c549059a157dd95d83d79596fcb438cc, 3, b3, 0x578c146d25b0b3a5df005e254f02a59cb963f1e4782efc0e6e4444818ef9ee83);
    e := TwoBits(n, b, e, 0x578c146d25b0b3a5df005e254f02a59cb963f1e4782efc0e6e4444818ef9ee83, 1, b, 0x42f0fc80ad07b8f876bd04c1bb7df363d874d9d77f342c5a6f1cd35ee7ae1b3d);
    e := TwoBits(n, b, e, 0x42f0fc80ad07b8f876bd04c1bb7df363d874d9d77f342c5a6f1cd35ee7ae1b3d, 0, 1, 0x8632f8292bdf6bab35ff3b1becaca04e3cb3665975752672df2d1d5a94a93502);
    e := TwoBits(n, b, e, 0x8632f8292bdf6bab35ff3b1becaca04e3cb3665975752672df2d1d5a94a93502, 0, 1, 0x35a3f4016838869b599ebfcb3af30609199994399f8974a8a8ba66a0d99c27bf);
    e := TwoBits(n, b, e, 0x35a3f4016838869b599ebfcb3af30609199994399f8974a8a8ba66a0d99c27bf, 2, b2, 0x650e1193556df917932ca5454518eff3f911f0cb3ec40c719e07e43487063de4);
    e := TwoBits(n, b, e, 0x650e1193556df917932ca5454518eff3f911f0cb3ec40c719e07e43487063de4, 1, b, 0x968807a84de4e7f88a292faca874a69a11347d75d597372e295c74737acd7c93);
    e := TwoBits(n, b, e, 0x968807a84de4e7f88a292faca874a69a11347d75d597372e295c74737acd7c93, 3, b3, 0x2a68a7bcfd2ff4a815064d3f5726f388c4fc0472d07700c804d4987f256352bb);
    e := TwoBits(n, b, e, 0x2a68a7bcfd2ff4a815064d3f5726f388c4fc0472d07700c804d4987f256352bb, 1, b, 0x6bb00282387b39a707f2d4fc24e586f6b7b9481a37f74965a446a4a9dd3f2ff0);
    e := TwoBits(n, b, e, 0x6bb00282387b39a707f2d4fc24e586f6b7b9481a37f74965a446a4a9dd3f2ff0, 0, 1, 0xa1e0821bb62b6081fd4475489f165ccdd6b484c6c66369111e442418ffe50d3);
    e := TwoBits(n, b, e, 0xa1e0821bb62b6081fd4475489f165ccdd6b484c6c66369111e442418ffe50d3, 3, b3, 0xfd57ae180207f23634790d1fa343229e1fd36bcdc300011f1e63720308aa9905);
    e := TwoBits(n, b, e, 0xfd57ae180207f23634790d1fa343229e1fd36bcdc300011f1e63720308aa9905, 3, b3, 0xce37944ad8e4f9b402b7270cce53be3fae0eeb8264dce7555d19b0b44f82ab56);
    e := TwoBits(n, b, e, 0xce37944ad8e4f9b402b7270cce53be3fae0eeb8264dce7555d19b0b44f82ab56, 2, b2, 0x29cfd56ce2aed7486e8d382386a60b6390cb128b7a154b81f29d4b88c5439ac0);
    e := TwoBits(n, b, e, 0x29cfd56ce2aed7486e8d382386a60b6390cb128b7a154b81f29d4b88c5439ac0, 1, b, 0xb9c8e161f4ca0521a73afb4f90f204cf604195a72591f1507b6224542bda576f);
    e := TwoBits(n, b, e, 0xb9c8e161f4ca0521a73afb4f90f204cf604195a72591f1507b6224542bda576f, 2, b2, 0x51a46b4895781dfea5628c08c48793d735c66bf147d28c27776269ac8ff97499);
    e := TwoBits(n, b, e, 0x51a46b4895781dfea5628c08c48793d735c66bf147d28c27776269ac8ff97499, 0, 1, 0x124064a9d011d999aace1269ad4fe854b919d673a1fd0df1325a7fcf8fd3baf3);
    e := TwoBits(n, b, e, 0x124064a9d011d999aace1269ad4fe854b919d673a1fd0df1325a7fcf8fd3baf3, 3, b3, 0x13d061a59249a8e3c1b518610f2fb39112da90d40a88cf92ec2172543ccec8be);
    e := TwoBits(n, b, e, 0x13d061a59249a8e3c1b518610f2fb39112da90d40a88cf92ec2172543ccec8be, 1, b, 0x98fbb1449bc1222c4e242cc54086927d60706c07eb24ada895f0ff92a2c894f2);
    e := TwoBits(n, b, e, 0x98fbb1449bc1222c4e242cc54086927d60706c07eb24ada895f0ff92a2c894f2, 3, b3, 0x9963cac218858e027431aa3066c1d5ab2a922e72e901f8419ddabb1e19e163dd);
    e := TwoBits(n, b, e, 0x9963cac218858e027431aa3066c1d5ab2a922e72e901f8419ddabb1e19e163dd, 2, b2, 0x5f6d34766524fc1c78475e510889a13f42b462146ad6da5fa6e89931f4fbdb2f);
    e := TwoBits(n, b, e, 0x5f6d34766524fc1c78475e510889a13f42b462146ad6da5fa6e89931f4fbdb2f, 3, b3, 0x5fc19224908cfac9070673b23d18b8e9e6ebcef35a4be021668732d95b6ffecf);
    e := TwoBits(n, b, e, 0x5fc19224908cfac9070673b23d18b8e9e6ebcef35a4be021668732d95b6ffecf, 0, 1, 0x7763aea244c774b4d88953a72f20c4a06bb5730e4702621a192250ebe825b885);
    e := TwoBits(n, b, e, 0x7763aea244c774b4d88953a72f20c4a06bb5730e4702621a192250ebe825b885, 2, b2, 0xd72270b67efba8248a0c340076f48b29f53ff9a71abd88923db6c64dda5d6b05);
    e := TwoBits(n, b, e, 0xd72270b67efba8248a0c340076f48b29f53ff9a71abd88923db6c64dda5d6b05, 2, b2, 0x9f7669ebbc5dfa34c57fa4e998123c05c78ae665d50f448d612084f08e72064c);
    e := TwoBits(n, b, e, 0x9f7669ebbc5dfa34c57fa4e998123c05c78ae665d50f448d612084f08e72064c, 2, b2, 0x1810a13095788b6336838fd5cadad05b1e1b5d336c0c4e7270ab94076fd9a706);
    e := TwoBits(n, b, e, 0x1810a13095788b6336838fd5cadad05b1e1b5d336c0c4e7270ab94076fd9a706, 2, b2, 0x7028097c281a686aed77bcecb8d79fac9ff285c244dd8f54c52161864d0bf0cc);
    e := TwoBits(n, b, e, 0x7028097c281a686aed77bcecb8d79fac9ff285c244dd8f54c52161864d0bf0cc, 2, b2, 0xf2b184c70772fc1b20a31644bf826b517dec321edd05e4c4eecb2b74dc09c831);
    e := TwoBits(n, b, e, 0xf2b184c70772fc1b20a31644bf826b517dec321edd05e4c4eecb2b74dc09c831, 0, 1, 0x68877e5411623614968693479116903514542384d2db4f8e3d3bdacaf738902e);
    e := TwoBits(n, b, e, 0x68877e5411623614968693479116903514542384d2db4f8e3d3bdacaf738902e, 3, b3, 0x29d9b1cdb7a255f12d1ffe33dd1ced6eb465cb2891e376c0373cfb55a9287d4e);
    e := TwoBits(n, b, e, 0x29d9b1cdb7a255f12d1ffe33dd1ced6eb465cb2891e376c0373cfb55a9287d4e, 1, b, 0x6bc746b8de1d774817bf9cc7fd3960bd4c76b61d5f5c69607400a52c3dc16790);
    e := TwoBits(n, b, e, 0x6bc746b8de1d774817bf9cc7fd3960bd4c76b61d5f5c69607400a52c3dc16790, 0, 1, 0x90b920ff319c35eec6584ea111ff3a19443eb94c24b92aee50c32a3c2c9c7ace);
    e := TwoBits(n, b, e, 0x90b920ff319c35eec6584ea111ff3a19443eb94c24b92aee50c32a3c2c9c7ace, 0, 1, 0xb2be2c2eca3b79dd63f707966af89aa3aeb46e8249a3fa9c090f621559d5b80b);
    e := TwoBits(n, b, e, 0xb2be2c2eca3b79dd63f707966af89aa3aeb46e8249a3fa9c090f621559d5b80b, 1, b, 0x1);
  }

  lemma PowerOrderB()
    ensures PowerIs(0xffffffff00000000ffffffffffffffffbce6faada7179e84f3b9cac2fc632551, 0xa7a419086c4d06e3581581fc8cea9fd97004e8cbd03ae8c54ff7837cceee9919, 0xe95f681f97, 0x1)
  {
    hide *;
    var n, b := 0xffffffff00000000ffffffffffffffffbce6faada7179e84f3b9cac2fc632551, 0xa7a419086c4d06e3581581fc8cea9fd97004e8cbd03ae8c54ff7837cceee9919;
    var b2, b3 := 0x69fb1c3e5fe713db71b3439637ff35df63bb10c87479d273df35807719935c8, 0xdd2ba844e6a8d5c8a819e5e8e140fbcd461156625f96b90a9970323361090676;
    SmallPowers(n, b, b2, b3);
    var e: nat := 0;
    e := TwoBits(n, b, e, 0x1, 3, b3, 0xdd2ba844e6a8d5c8a819e5e8e140fbcd461156625f96b90a9970323361090676);
    e := TwoBits(n, b, e, 0xdd2ba844e6a8d5c8a819e5e8e140fbcd461156625f96b90a9970323361090676, 2, b2, 0xaa36b5ca190b279963c7f772f07a3987a94c851bc9dde417b20eb505762a4eed);
    e := TwoBits(n, b, e, 0xaa36b5ca190b279963c7f772f07a3987a94c851bc9dde417b20eb505762a4eed, 2, b2, 0xcd86b7481d993fd088104dd1c9ad7c11e0dd93e3fa20cf3d591e137bf41cd72e);
    e := TwoBits(n, b, e, 0xcd86b7481d993fd088104dd1c9ad7c11e0dd93e3fa20cf3d591e137bf41cd72e, 1, b, 0x115c70422e6f5b9aee875617c3e262723334cda4dd12b8c4b226de4effb14f79);
    e := TwoBits(n, b, e, 0x115c70422e6f5b9aee875617c3e262723334cda4dd12b8c4b226de4effb14f79, 1, b, 0x366e317a33f3277bb3287f1ac740d01178c7225914b6c85770709193c2042f2);
    e := TwoBits(n, b, e, 0x366e317a33f3277bb3287f1ac740d01178c7225914b6c85770709193c2042f2, 1, b, 0xa0037d54d99917979abfd9f7e749cf8030a61a8d4c7710943eaa11ed28060cbe);
    e := TwoBits(n, b, e, 0xa0037d54d99917979abfd9f7e749cf8030a61a8d4c7710943eaa11ed28060cbe, 3, b3, 0xaa1e77efc06403967e524507d2e65d9dc3e7efdf48f6634eef7d78c2f3639908);
    e := TwoBits(n, b, e, 0xaa1e77efc06403967e524507d2e65d9dc3e7efdf48f6634eef7d78c2f3639908, 3, b3, 0xe72f23cc227abd5ebc1e572c90a65d5f5b3e6580edac076197e8b5ec1ea0c668);
    e := TwoBits(n, b, e, 0xe72f23cc227abd5ebc1e572c90a65d5f5b3e6580edac076197e8b5ec1ea0c668, 1, b, 0xe809081ffb929e47dc4c18d86d5b8543a8b522d2d08f07ab04cd629a29db5637);
    e := TwoBits(n, b, e, 0xe809081ffb929e47dc4c18d86d5b8543a8b522d2d08f07ab04cd629a29db5637, 2, b2, 0x5bfb7cc18aebf68f40290322c139ba7fdc43099e468f9fde32bdcf2db8017e1d);
    e := TwoBits(n, b, e, 0x5bfb7cc18aebf68f40290322c139ba7fdc43099e468f9fde32bdcf2db8017e1d, 2, b2, 0x39ace538676240a46d921442321baff8d52c9e34f2a9c75e7cdd9d710bd0d410);
    e := TwoBits(n, b, e, 0x39ace538676240a46d921442321baff8d52c9e34f2a9c75e7cdd9d710bd0d410, 0, 1, 0x3317172a021265bea402552a11564464357ce1bd8c56f6f2e21a7f7cf5a1addf);
    e := TwoBits(n, b, e, 0x3317172a021265bea402552a11564464357ce1bd8c56f6f2e21a7f7cf5a1addf, 0, 1, 0xc00b96a0b69d3f905bd0f9cec85fc36f874b445ed8675aa44152c7d581173075);
    e := TwoBits(n, b, e, 0xc00b96a0b69d3f905bd0f9cec85fc36f874b445ed8675aa44152c7d581173075, 1, b, 0x53e04240f0944353849287bebab626bc41d772b053250430442038b2cded4a1d);
    e := TwoBits(n, b, e, 0x53e04240f0944353849287bebab626bc41d772b053250430442038b2cded4a1d, 3, b3, 0x3421589ef6490971107dd58df8ef4caa69cda086c4d1f1e62de1869e8335dbf1);
    e := TwoBits(n, b, e, 0x3421589ef6490971107dd58df8ef4caa69cda086c4d1f1e62de1869e8335dbf1, 3, b3, 0x9d406714bf23fb0b0e8532d3a9b11ddc2cfbe17fa0d6f16692385e1a36fc4831);
    e := TwoBits(n, b, e, 0x9d406714bf23fb0b0e8532d3a9b11ddc2cfbe17fa0d6f16692385e1a36fc4831, 2, b2, 0xb26190bb87b16517d43839f938f6c9235c92aebca9130400bf4fd4bf2028a243);
    e := TwoBits(n, b, e, 0xb26190bb87b16517d43839f938f6c9235c92aebca9130400bf4fd4bf2028a243, 1, b, 0x9f1da5cc2c6f8129dbfe792124c3951f72eb8e65eccf0fe62014fcab62545af3);
    e := TwoBits(n, b, e, 0x9f1da5cc2c6f8129dbfe792124c3951f72eb8e65eccf0fe62014fcab62545af3, 1, b, 0xebedd67603248c9c7b263326393ba7215d0cceae3e934a7e28cdd513198b40cb);
    e := TwoBits(n, b, e, 0xebedd67603248c9c7b263326393ba7215d0cceae3e934a7e28cdd513198b40cb, 3, b3, 0x1);
  }

  lemma PrimeOrder()
    ensures IsPrime(0xffffffff00000000ffffffffffffffffbce6faada7179e84f3b9cac2fc632551)
  {
    hide IsPrime, PowerIs;
    Prime92Bit();
    Prime40Bit();
    PowerOrderA();
    PowerOrderB();
    CertifyTwo(0xffffffff00000000ffffffffffffffffbce6faada7179e84f3b9cac2fc632551,
      0x87b23e9d09d3e637b2aa341, 0xc0915601e1a4a1534a1b5bb0f18a5be8c8606856c8892723c90c7158d2e5baaf, 0x72ca5f0d48545c9059c0d962203775545c6248bf5ec7809bba828ec3264e8033,
      0xe95f681f97, 0xa7a419086c4d06e3581581fc8cea9fd97004e8cbd03ae8c54ff7837cceee9919, 0x154af5d0cc57479fbc9811f668d2d15a1df4a0b040822adf2503fef7b3e6719e);
  }

  /** The P-256 modulus is prime. */
  lemma FieldPrime()
    ensures IsPrime(PRIME)
  {
    PrimeP256();
  }
}
