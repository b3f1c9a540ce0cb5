/** The live descriptor objects by address; their footprints never overlap. */
module DescriptorTables {
  import opened Flags
  import opened Descriptors
  import Spec = DescriptorSpec
  type Info = Spec.Info

  /** An object in order, and what it stands for. */
  ghost predicate Shows(di: DescriptorInfo, view: Info)
    reads di, di.repr
  {
    di.Valid() && view == Spec.Info(di.fd, di.view)
  }

  lemma ShowsIs(di: DescriptorInfo)
    ensures di.Valid() <==> Shows(di, Spec.Info(di.fd, di.view))
  {
  }

  lemma ShownIs(di: DescriptorInfo, view: Info)
    requires Shows(di, view)
    ensures di.Valid() && view == Spec.Info(di.fd, di.view)
  {
  }

  class DescriptorTable {
    var infos: map<nat, DescriptorInfo>
    // What the objects stand for.
    ghost var views: map<nat, Info>
    ghost var repr: set<object>

    ghost predicate Owned(id: nat)
      requires id in infos && id in views
      reads this, repr
    {
      var di := infos[id];
      di in repr && di in di.repr && di.repr <= repr && this !in di.repr && Shows(di, views[id])
    }

    ghost predicate Valid()
      reads this, repr
    {
      && this in repr && views.Keys == infos.Keys
      && (forall id :: id in infos ==> Owned(id))
      && (forall i, j :: i in infos && j in infos && i != j ==> infos[i].repr !! infos[j].repr)
    }

    constructor ()
      ensures Valid() && fresh(repr) && views == map[]
    {
      infos, views := map[], map[];
      repr := {this};
    }

    function Mask(id: nat): (m: Events)
      requires Valid() && id in views
      reads this, repr
      ensures m == Spec.Mask(views[id].d)
    {
      assert Owned(id);
      infos[id].Mask()
    }

    predicate IsListeningSocket(id: nat)
      requires Valid() && id in views
      reads this, repr
      ensures IsListeningSocket(id) == views[id].d.Multiple?
    {
      assert Owned(id);
      infos[id].IsListeningSocket()
    }

    predicate IsAttached(id: nat, port: Port)
      requires Valid() && id in views
      reads this, repr
      ensures IsAttached(id, port) == (port in Spec.Ports(views[id].d))
    {
      assert Owned(id);
      infos[id].IsAttached(port)
    }

    function Fd(id: nat): (fd: int)
      requires Valid() && id in views
      reads this, repr
      ensures fd == views[id].fd
    {
      assert Owned(id);
      infos[id].fd
    }

    method Create(id: nat, fd: int, listening: bool)
      requires Valid() && id !in views
      modifies this
      ensures Valid() && fresh(repr - old(repr))
      ensures views == old(views)[id := Spec.Info(fd, Spec.NewDescriptor(listening))]
    {
      hide DescriptorInfo.Valid;
      assert forall j :: j in infos ==> Owned(j);
      var di := new DescriptorInfo(fd, listening);
      infos := infos[id := di];
      views := views[id := Spec.Info(di.fd, di.view)];
      repr := repr + di.repr;
    }

    method Drop(id: nat)
      requires Valid() && id in views
      modifies `infos, `views
      ensures Valid() && infos == old(infos) - {id} && views == old(views) - {id}
    {
      hide DescriptorInfo.Valid;
      assert forall j :: j in infos ==> Owned(j);
      infos, views := infos - {id}, views - {id};
    }

    /** Every object but one is in order, and apart from the others. */
    ghost predicate OthersOwned(id: nat)
      requires id in infos && views.Keys == infos.Keys
      reads this, repr, infos[id]
    {
      && (forall j :: j in infos && j != id ==> Owned(j) && infos[j].repr !! infos[id].repr)
      && (forall i, j :: i in infos && j in infos && i != j && i != id && j != id ==> infos[i].repr !! infos[j].repr)
    }

    /** Takes in what object `id` has become. */
    ghost method Restore(id: nat)
      requires this in repr && views.Keys == infos.Keys && id in infos && infos[id] in infos[id].repr
      requires this !in infos[id].repr
      requires infos[id].Valid() && OthersOwned(id)
      modifies `views, `repr
      ensures Valid() && repr == old(repr) + infos[id].repr
      ensures views == old(views)[id := Spec.Info(infos[id].fd, infos[id].view)]
    {
      hide DescriptorInfo.Valid, Shows;
      ShowsIs(infos[id]);
      views := views[id := Spec.Info(infos[id].fd, infos[id].view)];
      repr := repr + infos[id].repr;
    }

    /** Runs the destructor of an object; the entries of a listening socket are freed with it. */
    method Destroy(id: nat)
      requires Valid() && id in infos
      modifies repr
      ensures Valid() && repr == old(repr) && infos == old(infos) && views == old(views)[id := views[id]]
      ensures var m := infos[id].multiple;
              m != null ==> m.tokensMap == map[] && AllFreed(m.freed, old(m.freed), old(m.tokensMap))
    {
      hide DescriptorInfo.Valid, Shows, Spec.RemoveAllPorts, AllFreed;
      var di := infos[id];
      assert forall j :: j in infos ==> Owned(j);
      ShownIs(di, views[id]);
      di.Destroy();
      Restore(id);
    }

    lemma HasObject(id: nat)
      requires Valid() && id in views
      ensures id in infos && this in repr
    {
    }

    method Delete(id: nat)
      requires Valid() && id in views
      modifies repr
      ensures Valid() && repr == old(repr) && infos == old(infos) - {id} && views == old(views) - {id}
      ensures var m := old(infos)[id].multiple;
              m != null ==> m.tokensMap == map[] && AllFreed(m.freed, old(m.freed), old(m.tokensMap))
    {
      hide *;
      HasObject(id);
      Destroy(id);
      Drop(id);
    }

    method SetPortAndMask(id: nat, port: Port, mask: Events)
      requires Valid() && id in views && port != ILLEGAL_PORT
      modifies repr
      ensures Valid() && fresh(repr - old(repr))
      ensures views == old(views)[id := Spec.Info(old(views)[id].fd, Spec.SetPortAndMask(old(views)[id].d, port, mask))]
    {
      hide DescriptorInfo.Valid, Shows, Spec.SetPortAndMask;
      var di := infos[id];
      assert forall j :: j in infos ==> Owned(j);
      ShownIs(di, views[id]);
      di.SetPortAndMask(port, mask);
      Restore(id);
    }

    method RemovePort(id: nat, port: Port)
      requires Valid() && id in views
      modifies repr
      ensures Valid() && fresh(repr - old(repr))
      ensures views == old(views)[id := Spec.Info(old(views)[id].fd, Spec.RemovePort(old(views)[id].d, port))]
    {
      hide DescriptorInfo.Valid, Shows, Spec.RemovePort;
      var di := infos[id];
      assert forall j :: j in infos ==> Owned(j);
      ShownIs(di, views[id]);
      di.RemovePort(port);
      Restore(id);
    }

    method NextNotifyDartPort(id: nat) returns (port: Port)
      requires Valid() && id in views && Spec.Mask(views[id].d) != 0
      modifies repr
      ensures Valid() && fresh(repr - old(repr))
      ensures views == old(views)[id := Spec.Info(old(views)[id].fd, Spec.NextNotify(old(views)[id].d).0)]
      ensures port == Spec.NextNotify(old(views)[id].d).1
    {
      hide DescriptorInfo.Valid, Shows, Spec.NextNotify;
      var di := infos[id];
      assert forall j :: j in infos ==> Owned(j);
      ShownIs(di, views[id]);
      port := di.NextNotifyDartPort();
      Restore(id);
    }

    method NotifyAllDartPorts(id: nat) returns (notified: set<Port>)
      requires Valid() && id in views
      modifies repr
      ensures Valid() && fresh(repr - old(repr))
      ensures views == old(views)[id := Spec.Info(old(views)[id].fd, Spec.NotifyAll(old(views)[id].d))]
      ensures notified == Spec.Ports(old(views)[id].d)
    {
      hide DescriptorInfo.Valid, Shows, Spec.NotifyAll;
      var di := infos[id];
      assert forall j :: j in infos ==> Owned(j);
      ShownIs(di, views[id]);
      notified := di.NotifyAllDartPorts();
      Restore(id);
    }

    method ReturnTokens(id: nat, port: Port, count: nat)
      requires Valid() && id in views && port in Spec.Ports(views[id].d)
      modifies repr
      ensures Valid() && fresh(repr - old(repr))
      ensures var d := Spec.ReturnTokensTo(old(views)[id].d, port, count);
              views == old(views)[id := Spec.Info(old(views)[id].fd, d)]
    {
      hide DescriptorInfo.Valid, Shows, Spec.ReturnTokensTo;
      var di := infos[id];
      assert forall j :: j in infos ==> Owned(j);
      ShownIs(di, views[id]);
      di.ReturnTokens(port, count);
      Restore(id);
    }
  }
}
