/** The optimistic exercise-order store: per workout, the exercise-row ids in
    the order the user dragged them to, shown until the reorder is saved. */
module ExerciseOrder {

  class ExerciseOrderStore {
    /** workout id -> ordered workout-exercise ids. */
    var orders: map<string, seq<string>>

    constructor ()
      ensures orders == map[]
    {
      orders := map[];
    }

    /** `setOrder`: the workout's list becomes `orderedIds`, whatever it was. */
    method SetOrder(workoutId: string, orderedIds: seq<string>)
      modifies this
      ensures orders == old(orders)[workoutId := orderedIds]
      ensures workoutId in orders && orders[workoutId] == orderedIds
      ensures forall w :: w != workoutId ==> (w in orders <==> w in old(orders))
      ensures forall w :: w != workoutId && w in orders ==> orders[w] == old(orders)[w]
    {
      orders := orders[workoutId := orderedIds];
    }

    /** `clearOrder`: removes the workout's entry; an absent one changes nothing. */
    method ClearOrder(workoutId: string)
      modifies this
      ensures orders == old(orders) - {workoutId}
      ensures workoutId !in orders
      ensures workoutId !in old(orders) ==> orders == old(orders)
      ensures forall w :: w != workoutId ==> (w in orders <==> w in old(orders))
      ensures forall w :: w != workoutId && w in orders ==> orders[w] == old(orders)[w]
    {
      orders := orders - {workoutId};
    }
  }
}
